# The escrow money system, verified

A Dafny model of the parts of the escrow application that decide where money is:
the two-bucket wallet ledger, the agreement, condition and dispute lifecycle that
says when money may move, and the payment protocol that brings money in and sends
it out. Two smaller cores stand beside them: the idempotency-key reservations and
the two migrations that brought old wallets under the ledger.

Run `dafny verify dfyconfig.toml` to check all of it. Nothing here runs the
application.

## How it is built

- **Values.** `Ledger` says what a posting does to a wallet and what the two money
  entry points do when nothing runs beside them. `References` holds the reference
  strings. `Store` holds the rows and a request's view of them (what is committed,
  and what its own transaction has flushed), with the exact effect of each
  movement. `Escrow` and `Payments` give each route, handler, poll and provider
  move as a function of the store.
- **Code that changes state.** `WalletRepository`, `AgreementRoutes` and
  `PaymentService` are classes over a session with commit and rollback. Their
  methods follow the order of the source's steps, and each is proved to leave
  committed exactly what the value-level function says. A money call can be told
  what another caller with its reference has committed by the time it holds its
  rows; the routes call it with nobody in the way. `WebhookEvents`,
  `Idempotency`, `WalletMerge`, `LedgerBackfill` and `PaystackClient` do the same
  for their own state and loops.
- **Invariants and runs.** `EscrowProofs` and `PaymentProofs` prove what every
  step keeps. `EscrowTheorems`, `EscrowOutcomes`, `PaymentOutcomes` and `Solvency`
  say what follows: when each step goes through and what it leaves. `SystemRuns`
  puts agreements, payments and an honest provider together and carries the
  results over every run from an empty database. `Migration` and `MigrationRuns`
  show that the two migrations end in books from which the whole system runs on in
  the same order. `ProviderAnswers` joins the client's reading of an answer to what
  it does to the customer's money, and `WebhookAnswers` a handler's answer to whether
  its event is delivered again.
- **Concurrency.** `LedgerProtocol` breaks the two entry points into small steps
  (row lock, reference check, wallet creation, ordered wallet locks, staging,
  commit or conflict, second look) for any number of callers. The two proof
  modules show that every interleaving is a sequential history in commit order and
  that no set of callers deadlocks; `LedgerProtocolServices` adds what holds when
  the callers are the services. `LedgerRows` shows that a row lock taken first keeps
  callers for one reference in turn, and `LedgerRace` reaches the one exception,
  with and without such a row.

## What is taken as given

- A locking read returns the current committed row, and the unique index on
  `transaction.reference` is checked when a transaction commits.
- A row that a caller has locked or written before its money call is its own until
  it commits or rolls back: a payment row locked by a handler, or an agreement row
  whose new status was flushed by a release or a refund.
- Lifecycle routes and webhook handlers run one at a time; concurrency is modelled
  in the ledger, in webhook deliveries and in idempotency keys.
- The provider (`Payments.Honest`): at most one payment per open page, with a
  positive amount; verification answers truthfully and only about references sent
  as that kind of operation; the currency in a charge event's body, which is used
  when verification carries none, is the charge's; transfer events are emitted only
  for what happened; a transfer settles once and only a settled one is reversed
  afterwards; a definite rejection means nothing was executed. What the client
  reports as a definite rejection is in `PaystackClient`.
- Before the migrations (`Migration.LegacyOk`, `MigrationRuns.OldTables`): row ids
  and payment references are unique, recorded deposits are payable and belong to
  payments that succeeded, and no deal had money locked for it or a dispute. Wallet
  balances can be anything; a sum that rounds below zero fails the migration.
- Identifiers are fresh: an agreement or a payment is named by its position, a
  wallet by its owner (one wallet per user is a constraint of the table).
- The status column of a ledger entry never affects a balance, so it is kept in a
  map beside the append-only ledger.
- A request that ends well commits what is still flushed, as the notification and
  idempotency repositories do on the shared session; one that raises does not.

## Where the code and its promises part

Each of these is proved, with the exact condition.

- A caller of `apply_entry` or `apply_transfer` can be refused for lack of money
  although what it asked for has just been stored by a concurrent twin: the index is
  looked at again only after a conflict (`AnswersAreSequential`). It takes rows that
  cover the movement once and not twice (`LateTwinFails`), and runs of service calls
  reach it from an empty database: two `/fund` requests for one deal under different
  idempotency keys (`LateFundIsReached`). Pure credits are never refused so.
- A row locked first is meant to keep such callers apart, and does while their
  wallets exist (`RowsServeInTurn`). Creating a wallet commits, and lets the row go
  between the look and the posting; so two releases of one deal whose beneficiary
  has no wallet can end the same way (`LateReleaseIsReached`).
- What a caller flushed is documented as committed when a money call succeeds and
  rolled back when it fails. A replay succeeds too: found at the first look it
  leaves the writes pending, and found after a conflict it has rolled them back
  (`EntryAllOrNothing`, `OvertakenEntry`, `FlushedFate`).
- A refused withdrawal is documented as persisting nothing. That holds exactly when
  a check before the row refused it or the user had a wallet; otherwise creating
  the wallet commits a pending row without its debit (`RefusedWithdrawalPersists`).
  The same commit can leave a funding row marked as a success without a deposit
  when the verified amount is not positive (`UnpayableCharge`).
- "No withdrawal pending" is not enough for wallets and payouts to equal the
  verified charges: it is so exactly when besides no charge waits to be credited
  and no successful withdrawal has been reversed since (`EqualWhenNonePending`,
  reached by an honest run in `ShortfallIsReached`).
- Reversing a debit on any error but a timeout or a duplicate reference treats
  server errors, unreadable answers and acceptances without data as refusals
  (`ReversedButNotRefused`); the payments stay in order exactly if no transfer
  answered like that was executed (`KeepsOrderExactly`), and otherwise the money
  exists twice (`RejectedButExecuted`, `PaidTwiceIsReached`).
- An idempotency key executes one handler at most until expiry when every refused
  request finds the row that refused it (`OneExecution`). When one does not, two
  can run at once (`MissedReadRunsTwo`), and it takes no sweep: the first holder's
  release between another's refusal and its read is enough
  (`UnguardedBesideGuarded`).
- An application error below 500 in a webhook handler is acknowledged so that it is
  not retried, but the event is left failed, and any further delivery of it runs the
  handler again (`AcknowledgedIsRedriven`).
- Identifiers cut with the key at 200 characters can share a webhook dedupe key
  (`KeysByField`, `CutKeysCollide`).

## Model

| member | source | states |
|---|---|---|
| Ledger.AnyRunReconciles | app/repository/wallet_repository.py:3-21 | over any run of single movements and transfers, with any failures and repeats: each balance is the sum of its deltas, every after-column is the running sum, nothing is negative, references are unique, groups have 0 or 2 legs |
| Ledger.RunReconciles | app/repository/wallet_repository.py:3-21 | any run from books that satisfy the ledger invariant ends in such books |
| Ledger.AnyRunConserves | app/repository/wallet_repository.py:94-105 | over any run that pairs release halves, all wallets and both buckets together hold deposits + reversals + credits - withdrawals - debits |
| Ledger.EntryAnswers | app/repository/wallet_repository.py:376-434 | a single movement returns the entry stored under its own reference, or moves nothing |
| Ledger.TransferAnswers | app/repository/wallet_repository.py:438-521 | a transfer returns its group's debit then credit, each stored under its own reference, or moves nothing |
| Ledger.PostKeepsBooks | app/repository/wallet_repository.py:273-352 | one posting under a new reference keeps the whole ledger explained |
| Ledger.TransferConserves | app/service/wallet_service.py:187-221 | a release keeps the total equal to what crossed the boundary, also when both legs are one wallet |
| Ledger.EntryConserves | app/repository/wallet_repository.py:94-105 | every single-wallet kind changes the total by exactly what it brings in or sends out |
| Ledger.RefundUndoesLock | app/repository/wallet_repository.py:96-100 | a refund of a lock's amount restores both buckets; a lock posts exactly when payable and affordable |
| Ledger.PostingTable | app/repository/wallet_repository.py:294-320 | for every kind of movement: which bucket gains or loses the amount, and exactly which refusal it meets when it is not payable or not covered |
| Ledger.MarkReaches | app/repository/wallet_repository.py:524-550 | marking an entry's status reaches only a stored entry and nothing but its mark |
| References.RenderInjective | app/service/wallet_service.py:176-249 | the reference strings are injective over kind and id, for any injective spelling of ids |
| Money.KoboRoundTrip | app/service/wallet_service.py:57-58 | to_kobo and back is the identity exactly on amounts with at most two decimals, and never off by more than half a kobo |
| Store.FundedByKind | app/service/transaction_service.py:78-82 | funded by entry type is funded by reference |
| Store.ReleasedByGroup | app/service/transaction_service.py:84-85 | the out reference exists exactly when both legs of the group do |
| Store.ReplaysAreGenuine | app/repository/wallet_repository.py:376-382 | a replay is an entry of the requested kind, agreement and group |
| Store.EntryEffect | app/repository/wallet_repository.py:358-436 | exactly when a service's single movement posts, replays or fails, and everything it changes in each case |
| Store.ReleaseEffect | app/repository/wallet_repository.py:438-508 | exactly when a release posts, replays or fails, and both users' four balances afterwards |
| Sessions.EntryAllOrNothing | app/repository/wallet_repository.py:36-46 | with nobody in the way: a raising apply_entry moves no money, and loses the caller's flushed writes exactly when the wallet existed; a posting commits them with the entry; a replay neither commits nor drops them |
| Sessions.TransferAllOrNothing | app/repository/wallet_repository.py:438-455 | the same for apply_transfer and two wallets, up to its first look |
| Sessions.OvertakenEntry | app/repository/wallet_repository.py:402-415 | an apply_entry overtaken on its reference posts nothing and drops what its caller had flushed, yet succeeds with the other caller's entry exactly when the wallet covers the leg once more |
| Sessions.OvertakenRelease | app/repository/wallet_repository.py:479-488 | the same for a release, which then never ends in an integrity error |
| WalletRepositoryModule.Session.Commit | app/repository/wallet_repository.py:402-412 | the commit succeeds exactly when no pending entry repeats an earlier reference, and commits everything flushed or nothing |
| WalletRepositoryModule.WalletRepository.EnsureWallet | app/repository/wallet_repository.py:216-240 | creates the wallet if absent and commits whatever was flushed |
| WalletRepositoryModule.WalletRepository.ResolveWallet | app/repository/wallet_repository.py:242-251 | commits only on a miss |
| WalletRepositoryModule.WalletRepository.ApplyLedgerEntry | app/repository/wallet_repository.py:273-352 | changes the row in place and adds its entry, or raises the right error and changes nothing |
| WalletRepositoryModule.WalletRepository.ApplyLegs | app/repository/wallet_repository.py:456-477 | both legs on the locked rows, the second reading what the first left when they share a row |
| WalletRepositoryModule.WalletRepository.PostLegs | app/repository/wallet_repository.py:456-488 | from both wallets on: legs, commit, and after a conflict a rollback and a second look at the group |
| WalletRepositoryModule.WalletRepository.ApplyEntry | app/repository/wallet_repository.py:376-436 | is the value-level rule for one movement in a session, commits and rollbacks included, and the rule for being overtaken when another caller commits its reference first |
| WalletRepositoryModule.WalletRepository.ApplyTransfer | app/repository/wallet_repository.py:438-508 | is the value-level rule for a transfer in a session, overtaken or not |
| WalletRepositoryModule.WalletRepository.MarkEntryStatus | app/repository/wallet_repository.py:523-550 | changes only the presentational status, commits only if asked and the entry exists |
| LedgerProtocolTheorems.AnyInterleaving | app/repository/wallet_repository.py:358-521 | every state that any interleaving of any number of callers reaches satisfies the protocol's invariant |
| LedgerProtocolTheorems.RefinesSequential | app/repository/wallet_repository.py:358-521 | in every such state the books are those of the sequential run over the commits in their order; balances reconcile, references are unique, groups have 0 or 2 legs, and a caller that finished without error holds what is stored under its references |
| LedgerProtocolTheorems.FlushedFate | app/repository/wallet_repository.py:36-46 | what became of a finished caller's flushed changes: committed with a posting, rolled back by an error or a conflict unless a wallet creation had committed them, untouched by a replay at the first look |
| LedgerProtocolTheorems.AnswersAreSequential | app/repository/wallet_repository.py:402-419 | each finishing step answers and leaves the books as the sequential ledger would then, exactly unless the caller holds its locks, its operation is stored meanwhile, and the rows do not cover it; no caller gets an integrity error |
| LedgerProtocolTheorems.CreditsAreNeverRefused | app/repository/wallet_repository.py:94-105 | a payable deposit, withdrawal reversal or credit never meets that exception |
| LedgerRace.LateTwinFails | app/repository/wallet_repository.py:376-419 | from any reachable state with two callers of one operation that is not stored, rows that cover it once and not twice, and free locks, a schedule posts the first and refuses the second although the sequential ledger would replay it |
| LedgerRace.DebitCoversOne | app/repository/wallet_repository.py:306-325 | for a withdrawal, a lock or an adjustment debit that is: the available balance is at least the amount and less than twice; the refusal is for want of funds |
| LedgerRace.ReleaseCoversOne | app/repository/wallet_repository.py:456-477 | for a release it is the same of the payer's escrow, and the refusal is for want of escrow |
| LedgerRace.LateFundIsReached | app/routers/agreement.py:500-565 | from an empty database, for any account, payable amount and deal, a run of service calls ends with two requests to fund the deal, one posted and one refused for want of funds though stored |
| LedgerRace.LateReleaseIsReached | app/repository/wallet_repository.py:438-521 | for any payer, payee, amount and deal, a run of service calls ends with two releases that each came in with the deal's row, one posted and one refused for want of escrow though both legs are stored |
| LedgerRows.RowsServeInTurn | app/repository/wallet_repository.py:23-34 | over any run of any callers in which those for one reference bring one row and have wallets, none of these is ever refused late |
| LedgerRows.RowedAnswersAreSequential | app/repository/wallet_repository.py:376-419 | each of those is told, when it finishes, what the sequential ledger would tell it then |
| LedgerProtocolServices.ServicesInterleaved | app/service/wallet_service.py:165-249 | when callers ask as the services do, every interleaving conserves money, stores only genuine entries, and answers with those |
| LedgerProtocolTheorems.NoDeadlock | app/repository/wallet_repository.py:23-34 | in every reachable state, some caller can step exactly when some caller is unfinished, with row locks before wallet locks |
| LedgerProtocolTheorems.OrderedWants | app/repository/wallet_repository.py:262-267 | whatever lock a caller holds comes strictly before the one it waits for |
| LedgerProtocolTheorems.RunsAreShort | app/repository/wallet_repository.py:358-508 | with no new arrivals no schedule runs longer than a bound that every step lowers |
| LedgerProtocolProofs.AdvanceKeeps | app/repository/wallet_repository.py:358-521 | every small step of every caller keeps locks exclusive, staged writes current, and the books equal to the sequential history |
| LedgerProtocolProofs.CommitBooks | app/repository/wallet_repository.py:384-401 | committing what was staged under the locks is what the sequential ledger does at that moment |
| LedgerProtocol.ConflictIsReplay | app/repository/wallet_repository.py:402-415 | a unique-index conflict always means the whole operation is stored |
| EscrowProofs.StepKeepsEscrow | app/routers/agreement.py:358-892 | every lifecycle route keeps: escrow attribution, status and ledger agreement, justified releases, one live dispute |
| EscrowProofs.HeldIsThere | app/service/wallet_service.py:165-249 | what a deal holds is within its depositor's escrow bucket |
| EscrowProofs.ReleaseSucceeds | app/routers/agreement.py:841-892 | a release of a funded deal succeeds exactly when it is active or completed, and then settles it |
| EscrowProofs.RefundSucceeds | app/routers/agreement.py:789-838 | a refund of a funded deal succeeds exactly when it is not completed, and then settles it |
| EscrowProofs.DecisionKeeps | app/service/dispute_service.py:337-396 | recording a decision leaves no dispute live and unfreezes only a disputed deal |
| EscrowTheorems.StepEvolves | app/service/agreement_service.py:93-189 | any route on any deal: others' routes leave it and its entries alone; its own follow the status graph, keep the amount, never remove an entry and add one only when allowed |
| EscrowTheorems.StatusIsLedger | app/service/agreement_service.py:121-189 | completed iff both release legs exist, refunded iff the refund exists, never both, cancelled only if never locked |
| EscrowTheorems.FinalStays | app/service/agreement_service.py:105-189 | a completed, cancelled or refunded deal keeps its status and all its entries under every route |
| EscrowTheorems.FreezeHolds | app/service/dispute_service.py:138-217 | while a dispute is live, no route but resolving it posts anything about the deal except an administrator's refund |
| EscrowTheorems.OneLiveDispute | app/models/dispute.py:33-41 | disputed means exactly one live dispute; a live one means disputed or refunded |
| EscrowTheorems.ResolveOutcome | app/routers/admin_dispute.py:146-223 | a resolution succeeds exactly for a live dispute and a decision other than a split, which is refused; the status it ends in, for every decision, prior status and funding; anything else changes nothing |
| EscrowTheorems.PermittedReleaseSucceeds | app/routers/agreement.py:580-639 | the release route succeeds exactly for a participant of a funded, active or completed deal that has at least one condition and each of them approved: never for lack of escrow; refused, it changes nothing |
| EscrowTheorems.PermittedRefundSucceeds | app/routers/agreement.py:722-786 | the refund route succeeds exactly on a funded deal that is not completed |
| EscrowTheorems.FundingMoves | app/routers/agreement.py:500-565 | funding succeeds exactly for the depositor of an active unfunded deal with the money available, and moves and locks exactly that; it is refused for want of funds exactly when only the money is missing; otherwise nothing moves |
| EscrowTheorems.ReleasePays | app/service/wallet_service.py:187-221 | a release moves the amount from the depositor's escrow to the beneficiary, once, and no other balance |
| EscrowTheorems.RefundPays | app/service/wallet_service.py:223-249 | a refund moves the amount back within the depositor's wallet, once, and no other balance |
| EscrowTheorems.MovementsAreComplete | app/service/wallet_service.py:165-249 | locks, releases and refunds are posted as completed entries |
| EscrowTheorems.ReleaseWasJustified | app/routers/condition.py:109-133 | if either release leg exists, the deal has at least one condition and all are approved, or a resolved dispute on it favours the beneficiary |
| EscrowOutcomes.CreateOutcome | app/service/agreement_service.py:263-363 | a deal is created exactly for a positive two-decimal amount and an invitee other than the caller; it is added pending, its creator in the chosen role, the invitee invited to the other one, every condition outstanding, and nothing else changes |
| EscrowOutcomes.AcceptOutcome | app/service/agreement_service.py:452-532 | accepting succeeds exactly for the invitee of a pending deal or someone already in it; the newcomer joins behind the creator in the open role, the invitation is taken, the deal is active, and nothing else changes |
| EscrowOutcomes.CancelOutcome | app/routers/agreement.py:653-707 | cancelling succeeds exactly for a member of a pending, cancelled or unfunded active deal, and changes only the status |
| EscrowOutcomes.RejectOutcome | app/service/agreement_service.py:578-645 | declining succeeds exactly for the invitee of a pending or unfunded active deal; it cancels the deal, expires the invitation, records the decline, and nothing else changes |
| EscrowOutcomes.RaiseOutcome | app/service/dispute_service.py:138-217 | a dispute can be raised exactly by someone who has joined an active deal, and then freezes it |
| EscrowOutcomes.AddOutcome | app/service/condition_service.py:101-153 | a condition is added exactly by a member of a pending deal for a party that exists; nothing is locked then, and neither release route pays before it is approved |
| EscrowOutcomes.RejectConditionOutcome | app/service/condition_service.py:170-185 | a condition is rejected exactly by the depositor of an active deal unless approved already; neither release route pays until it is approved |
| EscrowOutcomes.ApproveOutcome | app/routers/condition.py:234-277 | approving succeeds exactly for the depositor of an active deal and a condition not approved yet; if the deal is funded and every other condition is approved it completes and pays the beneficiary from the depositor's escrow, else only that condition changes |
| EscrowOutcomes.NoConditionsNoRelease | app/service/condition_service.py:203-212 | a deal without conditions is released by neither path, and neither changes anything |
| EscrowOutcomes.ResolvePays | app/routers/admin_dispute.py:146-223 | resolving the dispute of a funded disputed deal pays the beneficiary, or the depositor back, or nobody, as decided; in every other case it pays nothing |
| EscrowOutcomes.ReviewOutcome | app/service/dispute_service.py:317-335 | exactly an open dispute can be claimed; that marks it under review and changes nothing else, so the deal stays frozen |
| EscrowOutcomes.WhoIsForbidden | app/service/agreement_service.py:534-576 | who is turned away as having no business with a deal: anyone but the depositor from paying and deciding, non-members from changing it, those not joined from disputing it, and anyone but the invitee from accepting |
| EscrowOutcomes.ConditionsEvolve | app/service/condition_service.py:63-185 | no route removes a condition, adds one after pending or undoes an approval; only the depositor of an active deal decides, one at a time |
| EscrowFrame.StepIsInternal | app/repository/wallet_repository.py:94-105 | no lifecycle route changes a payment, any entry not about an agreement, or what has crossed the boundary |
| EscrowFrame.InternalKeepsTotal | app/repository/wallet_repository.py:94-105 | so locks, releases and refunds leave the total over all wallets unchanged |
| PaymentProofs.PayStepKeeps | app/service/paystack_webhook_service.py:109-472 | every handler, poll, request and honest provider move keeps each payment row, its entries, the debit's mark and the provider's state consistent |
| PaymentProofs.ReverseBooks | app/service/wallet_service.py:390-412 | marking a debit reversed and crediting it back always succeeds and adds exactly one entry for the amount |
| PaymentProofs.WithdrawalResult | app/service/wallet_service.py:286-330 | what a withdrawal request leaves committed, case by case |
| PaymentOutcomes.ChargeOutcome | app/service/paystack_webhook_service.py:181-259 | a charge event credits the owner with what was paid exactly when the row is pending and verification is complete; otherwise nothing changes, and the ledger never refuses it |
| PaymentOutcomes.FundRequestOutcome | app/service/wallet_service.py:110-159 | a funding request leaves one row for the amount asked for, pending, or failed if the provider refused it, and moves no money |
| PaymentOutcomes.WithdrawalOutcome | app/service/wallet_service.py:274-330 | a withdrawal is debited exactly when withdrawals are on, the amount is within the limits, there is an account, and the amount has two decimals and is covered |
| PaymentOutcomes.UndoneOutcome | app/service/paystack_webhook_service.py:383-445 | failed and reversed events put back exactly the debit, from a pending row or a reversed success; every other delivery changes nothing |
| PaymentOutcomes.UndoneAnyhow | app/service/paystack_webhook_service.py:383-445 | whatever the provider claims: a row without a debit gets its status and no money, and a debit is put back at most once, to its owner and for its own amount |
| PaymentOutcomes.SuccessOutcome | app/service/paystack_webhook_service.py:301-338 | transfer.success marks a pending row and its debit once confirmed, moves no money, and otherwise changes nothing |
| PaymentOutcomes.SentOutcome | app/service/wallet_service.py:333-371 | an accepted transfer is for exactly the amount debited, a lost one changes nothing, a rejected one fails the row and puts the debit back |
| PaymentOutcomes.PollOutcome | app/service/wallet_service.py:469-499 | a poll moves money only when the provider says the owner's pending transfer did not happen |
| PaymentOutcomes.PollAnyhow | app/service/wallet_service.py:433-499 | whatever the provider claims: a poll touches only the owner's own pending row, never marks a success without a debit, and a success moves no money |
| Solvency.Solvent | app/service/wallet_service.py:274-412 | balances plus payouts kept plus what is on its way equal the verified charges and what the wallets held when the ledger was opened; so never more, and equal exactly when every charge's row is a success and every debit's row is undone or its transfer stands settled |
| Solvency.EqualWhenNonePending | app/service/wallet_service.py:274-412 | with no withdrawal pending, balances and payouts equal the charges exactly when no naira charge waits to be credited and no successful withdrawal has been reversed since |
| Solvency.UndoneOnceExactly | app/service/paystack_webhook_service.py:383-445 | at most one reversal per debit, same wallet and amount, none without its debit, present exactly when the row says failed or refunded; the debit's mark agrees with the row |
| Solvency.CreditedOnceExactly | app/service/paystack_webhook_service.py:167-259 | at most one deposit per payment; a funding row not settled before the ledger is a success exactly when its deposit exists, for its owner and the verified amount |
| Solvency.PaidInFull | app/service/wallet_service.py:57-58 | paying the kobo asked for credits the requested amount exactly when that amount has at most two decimals |
| Solvency.RefusedWithdrawalPersists | app/service/wallet_service.py:299-330 | a refused withdrawal persists nothing exactly when it failed a gate or its user had a wallet |
| Solvency.UnpayableCharge | app/service/paystack_webhook_service.py:221-259 | a verified charge is credited exactly when positive; otherwise the row says success without a deposit exactly when the user had no wallet |
| Solvency.RejectedButExecuted | app/service/wallet_service.py:355-371 | a provider that executes and then rejects leaves the amount both in the wallet and at the bank |
| Solvency.UndeliveredReversal | app/service/paystack_webhook_service.py:400-408 | a transfer reversed after success leaves no row pending, the database as it was, and the sum short by that debit |
| SolvencyRuns.ShortfallIsReached | app/service/paystack_webhook_service.py:400-408 | for any customer and amount an honest run from an empty database reaches that shortfall |
| SystemRuns.EveryStateFrom | app/repository/wallet_repository.py:3-46 | from any state in order, every state an honest run reaches is in order: reconciliation, genuine references, attribution, conservation, solvency, every deal as its entries say, every withdrawal undone and every payment credited at most once and as its row says |
| SystemRuns.EveryReachableState | app/repository/wallet_repository.py:3-46 | the same in every state an honest run from an empty database reaches |
| SystemRuns.FinalForever | app/service/agreement_service.py:93-189 | over whole runs a final status is kept and not one entry about the deal changes |
| SystemRuns.FrozenUntilResolved | app/service/dispute_service.py:138-217 | over whole runs without a resolution a frozen deal stays frozen and only an administrator's refund can be posted |
| SystemRuns.PayStepKeepsDeals | app/repository/wallet_repository.py:94-105 | no payment step, honest or not, touches a deal, its entries or anyone's escrow bucket |
| AgreementRoutes.Routes.CreateAgreement | app/service/agreement_service.py:263-363 | adds the pending deal with its creator in the chosen role, the other role open to the invitee, and its conditions outstanding; refuses exactly an unpayable amount or a self-invitation |
| AgreementRoutes.Routes.AcceptAgreement | app/service/agreement_service.py:452-532 | joins and activates exactly as specified, in two commits |
| AgreementRoutes.Routes.RejectAgreement | app/routers/agreement.py:358-424 | declines and cancels, refused while funded and unreleased |
| AgreementRoutes.Routes.CancelAgreement | app/service/agreement_service.py:534-576 | cancels a deal, harmless when repeated; in any reachable state it succeeds exactly for a member of a pending, cancelled or unfunded active one |
| AgreementRoutes.Routes.FundAgreement | app/routers/agreement.py:500-565 | commits exactly the specified funding |
| AgreementRoutes.Routes.PerformEscrowRelease | app/routers/agreement.py:841-892 | commits the completed status with the money, or neither |
| AgreementRoutes.Routes.PerformEscrowRefund | app/routers/agreement.py:789-838 | commits the refunded status with the money, or neither |
| AgreementRoutes.Routes.ReleaseEscrow | app/routers/agreement.py:580-639 | checks party, funding and conditions, then releases; never unless there is a condition and each is approved |
| AgreementRoutes.Routes.RefundEscrow | app/routers/agreement.py:722-786 | checks funding and release, then refunds |
| AgreementRoutes.Routes.AllConditionsApproved | app/service/condition_service.py:203-212 | true exactly when there is a condition and all are approved |
| AgreementRoutes.Routes.AddConditionTo | app/service/condition_service.py:101-153 | adds a condition only while pending; when it does, nothing is locked for the deal and no release can pay before the condition is approved |
| AgreementRoutes.Routes.ReleaseEscrowIfReady | app/routers/condition.py:88-148 | pays out and completes an active funded deal all of whose conditions are approved; otherwise, and on failure, changes nothing |
| AgreementRoutes.Routes.ApproveConditionOf | app/routers/condition.py:234-277 | commits the approval, then releases separately; with the last approval of a funded deal the beneficiary is paid |
| AgreementRoutes.Routes.RejectConditionOf | app/service/condition_service.py:170-185 | commits the rejection of a decidable condition, after which no release of the deal can pay |
| AgreementRoutes.Routes.Raise | app/service/dispute_service.py:138-217 | opens the dispute and freezes the deal in one commit, or refuses |
| AgreementRoutes.Routes.AnyLive | app/service/dispute_service.py:158-159 | true exactly when some dispute is live |
| AgreementRoutes.Routes.MarkUnderReview | app/service/dispute_service.py:317-335 | claims an open dispute only, and leaves the deal frozen in its status |
| AgreementRoutes.Routes.Resolve | app/routers/admin_dispute.py:146-223 | commits the decision first; a failing payout leaves it standing |
| PaymentServiceModule.PaymentService.RequestWalletFund | app/service/wallet_service.py:110-159 | records the intent first and fails it if the provider refuses |
| PaymentServiceModule.PaymentService.RequestWithdrawalOf | app/service/wallet_service.py:274-330 | the switch, the limits and the account are checked first; then the row commits with the debit |
| PaymentServiceModule.PaymentService.ReverseWithdrawalOf | app/service/wallet_service.py:390-412 | row, mark and credit in one commit |
| PaymentServiceModule.PaymentService.GetWithdrawal | app/service/wallet_service.py:433-499 | a poll reconciles only the owner's pending row, from the provider's answer |
| PaymentServiceModule.PaymentService.HandleChargeSuccess | app/service/paystack_webhook_service.py:167-259 | credits what verification reports, through every refusal branch in order |
| PaymentServiceModule.PaymentService.HandleTransferSuccess | app/service/paystack_webhook_service.py:301-338 | marks row and debit after verification, moving no money |
| PaymentServiceModule.PaymentService.HandleTransferReversal | app/service/paystack_webhook_service.py:383-445 | puts the debit back from allowed statuses only, and invents no credit without a debit |
| WebhookEvents.WebhookEventRepository.Claim | app/repository/webhook_event_repository.py:34-90 | wins exactly for a new key or a failed one with attempts left |
| WebhookEvents.WebhookEventRepository.Mark | app/repository/webhook_event_repository.py:97-120 | sets the status of an existing event only |
| WebhookEvents.WebhookEventRepository.Handle | app/service/paystack_webhook_service.py:109-161 | a handler runs exactly when its type is handled and the claim was won; the status each ending leaves, an acknowledged error included |
| WebhookEvents.BoundedRedrive | app/repository/webhook_event_repository.py:65-90 | over any overlapping deliveries: one handler at a time per key, attempts counts its runs and is at most five |
| WebhookEvents.HandledAgainIff | app/repository/webhook_event_repository.py:79-84 | a delivery runs a handler exactly when none is running, fewer than five have run, and all of them left the event failed |
| WebhookEvents.AcknowledgedIsRedriven | app/service/paystack_webhook_service.py:137-147 | an event whose handler error was acknowledged with 200 is re-driven by the next delivery, like one that asked for it |
| WebhookEvents.ClosedForGood | app/repository/webhook_event_repository.py:79-84 | a closed key never runs a handler again |
| WebhookEvents.RedeliveryCloses | app/repository/webhook_event_repository.py:79-84 | five deliveries to the end close a key whatever the handler does |
| WebhookEvents.KeyIdentifies | app/service/paystack_webhook_service.py:84-95 | dedupe keys agree exactly when the types agree and the identifiers, whichever field they come from, agree as far as the cut leaves them |
| WebhookEvents.KeysByField | app/service/paystack_webhook_service.py:84-95 | events with ids share a key exactly when types and ids agree, whatever else they carry; without ids, exactly when references do; with neither, exactly when digests do |
| WebhookAnswers.ChargeAsksAgain | app/service/paystack_webhook_service.py:137-205 | a charge event asks for another delivery exactly when its row is pending and could not be verified, and then nothing has changed |
| WebhookAnswers.SuccessAsksAgain | app/service/paystack_webhook_service.py:301-325 | and so does the success of a transfer |
| WebhookAnswers.AskedAgainWaits | app/service/paystack_webhook_service.py:137-160 | a delivery that asks again leaves its event to be re-driven, up to the fifth; any final answer closes it |
| Idempotency.IdempotencyRepository.Reserve | app/repository/idempotency_repository.py:37-89 | claims a free or abandoned key exactly then, for 24 hours and for this body, keeping the row's id on a takeover and ids unique |
| Idempotency.IdempotencyRepository.Complete | app/repository/idempotency_repository.py:100-118 | puts the response on the one row with that id; from then on the body it was reserved under replays it and any other is refused |
| Idempotency.IdempotencyRepository.Release | app/repository/idempotency_repository.py:128-141 | frees the key of an unfinished reservation, and never drops a response |
| Idempotency.IdempotencyContext.Begin | app/core/idempotency.py:87-151 | every answer of begin, from the key and the table, and the table it leaves |
| Idempotency.IdempotencyContext.Complete | app/core/idempotency.py:166-180 | records the response under the held reservation, if any |
| Idempotency.IdempotencyContext.ReleaseIfAbandoned | app/core/idempotency.py:182-197 | releases only a held, uncompleted reservation |
| Idempotency.OneExecution | app/core/idempotency.py:87-180 | in timely runs in which every refused request of a key finds its row, the key runs one handler at a time, and only once every earlier execution of it has expired |
| Idempotency.MissedReadRunsTwo | app/core/idempotency.py:122-132 | after a refused request reads, one more request makes two handlers of the key run at once exactly when the row was gone at the read |
| Idempotency.OneRecordedExecution | app/core/idempotency.py:87-180 | whatever the reads find, executions under a reservation are one at a time, each after every recorded one before it has expired |
| Idempotency.RecordedIsReplayed | app/core/idempotency.py:134-144 | until expiry the body a response was recorded for replays it and another body is refused |
| Idempotency.HeldIsInFlight | app/core/idempotency.py:134-151 | while a reservation is worked on, a repeat of its request is told that it is in flight and another body is refused |
| Idempotency.CompletedStays | app/repository/idempotency_repository.py:64-89 | nothing changes a completed row before it expires |
| Idempotency.AbandonedIsReservable | app/repository/idempotency_repository.py:44-51 | raising frees the key at once; a dead process frees it exactly after the timeout |
| Idempotency.UnguardedBesideGuarded | app/core/idempotency.py:125-132 | a run with no sweep and no delay in which two requests of one key run at once and both execute |
| WalletMerge.WalletTable.MergeDuplicates | alembic/versions/b807c382afe3_normalise_wallet_money_columns.py:30-72 | the update and delete leave the merged table |
| WalletMerge.WalletTable.Upgrade | alembic/versions/b807c382afe3_normalise_wallet_money_columns.py:30-113 | merge, round and check: one row per user, and the constraints hold exactly when nobody's sums round below zero |
| WalletMerge.NormalisePreserves | alembic/versions/b807c382afe3_normalise_wallet_money_columns.py:74-91 | each user ends with one wallet holding, in each bucket, the sum of theirs rounded once, halves away from zero |
| Money.RoundedHalfAway | alembic/versions/b807c382afe3_normalise_wallet_money_columns.py:74-91 | rounding gives whole kobo, changes nothing else, moves an amount by half a kobo at most and a half away from zero |
| WalletMerge.MergePreserves | alembic/versions/b807c382afe3_normalise_wallet_money_columns.py:34-72 | each user who had wallets has one, the oldest, holding the sum of theirs in each bucket |
| WalletMerge.SumAdds | alembic/versions/b807c382afe3_normalise_wallet_money_columns.py:48-53 | the sums are made of every row of the user, bucket by bucket, and of no other |
| WalletMerge.MergeIsIdempotent | alembic/versions/b807c382afe3_normalise_wallet_money_columns.py:34-45 | merging again changes nothing |
| LedgerBackfill.Backfill.BackfillWallet | alembic/versions/93fd3622d2c5_backfill_ledger_from_legacy_wallet_.py:84-160 | the greedy loop, residual and overwrite for one wallet |
| LedgerBackfill.Backfill.Upgrade | alembic/versions/93fd3622d2c5_backfill_ledger_from_legacy_wallet_.py:69-182 | all legacy wallets in turn, failing exactly when a wallet still drifts |
| LedgerBackfill.DepositsAre | alembic/versions/93fd3622d2c5_backfill_ledger_from_legacy_wallet_.py:88-102 | the payments considered are exactly the user's own, all of them, in recorded order |
| LedgerBackfill.ExplainSums | alembic/versions/93fd3622d2c5_backfill_ledger_from_legacy_wallet_.py:104-151 | the entries written add up to the old balance, for any recorded deposits |
| LedgerBackfill.ExplainRuns | alembic/versions/93fd3622d2c5_backfill_ledger_from_legacy_wallet_.py:104-151 | every balance_after is the running sum and never above the balance |
| LedgerBackfill.GreedyPrefix | alembic/versions/93fd3622d2c5_backfill_ledger_from_legacy_wallet_.py:104-151 | the deposits written are the longest oldest-first run that never overshoots, plus one residual entry when needed |
| LedgerBackfill.BackfillReconciles | alembic/versions/93fd3622d2c5_backfill_ledger_from_legacy_wallet_.py:153-182 | every legacy wallet reconciles with its whole balance available, and the final check passes exactly when no other wallet drifted before |
| LedgerBackfill.BackfillRefsUnique | alembic/versions/93fd3622d2c5_backfill_ledger_from_legacy_wallet_.py:111-135 | no reference is written twice |
| Migration.MigrationEstablishesLedger | alembic/versions/93fd3622d2c5_backfill_ledger_from_legacy_wallet_.py:84-182 | from any legacy wallets whose rounded sums pass the constraints, merge and backfill end with the final check passing and books that satisfy the whole ledger invariant, every entry completed, each user holding the rounded sums of all their wallets, all of it available |
| Migration.RunsStartFromMigratedBooks | alembic/versions/93fd3622d2c5_backfill_ledger_from_legacy_wallet_.py:24-33 | from such books the escrow invariant holds before the first deal and every ledger run reconciles |
| MigrationRuns.StartsInOrder | alembic/versions/93fd3622d2c5_backfill_ledger_from_legacy_wallet_.py:6-33 | with any unfunded old deals and any old payments beside them, the migrated books satisfy the invariant of the whole system |
| MigrationRuns.RunsFromMigratedTables | alembic/versions/93fd3622d2c5_backfill_ledger_from_legacy_wallet_.py:24-33 | every honest run from there stays in order: reconciliation, attribution, undone and credited once, and all money is what all wallets held at the start and what was paid in since |
| PaystackClient.AnswersAreNamed | app/service/paystack_client.py:85-195 | which answers are a timeout, an acceptance with its own data, a refusal over a used reference, or one over the input, in terms of the words of the message |
| PaystackClient.LowerAt | app/service/paystack_client.py:85-94 | lowering a message changes its capital letters and nothing else |
| PaystackClient.Request | app/service/paystack_client.py:128-195 | repeats only timeouts and server errors, never more than retries + 1 times with the stated backoff, and reports the last answer |
| PaystackClient.InitiateTransfer | app/service/paystack_client.py:337-362 | posts a transfer exactly once |
| PaystackClient.ContainsIff | app/service/paystack_client.py:85-94 | the message search finds a hint exactly when it occurs |
| PaystackClient.NamedWithoutCase | app/service/paystack_client.py:85-94 | capitals never change how an answer is classified |
| ProviderAnswers.KeepsOrderExactly | app/service/wallet_service.py:333-371 | sending a withdrawal's transfer keeps the payments in order exactly unless it was executed and answered unclearly or with a refusal that is not, in its words, about a used reference; with a provider that executes nothing it refuses, exactly unless it was answered unclearly |
| ProviderAnswers.PaidTwiceIsReached | app/service/wallet_service.py:355-371 | for any customer, amount and such answer, an honest run reaches a withdrawal whose money, if the transfer is executed, ends both in the wallet and at the bank |

## Left out

- Interleavings inside one lifecycle route and crashes in the middle of one: agreement rows are not locked by these routes, so their properties are stated with each route as one step.
- Waiting inside the database on an uncommitted duplicate reference: a conflict is seen at commit, so deadlocks through the index itself are not modelled.
- Locks other than those of wallets and of the one row a caller brings.
- WalletRepositoryModule.WalletRepository.ApplyEntry: a concurrent caller with another reference is not one of its cases; interleavings of all callers are in `LedgerProtocol`.
- LedgerBackfill.Backfill.Upgrade: the entry's description and metadata columns and the downgrade are not modelled, and each query's result is a parameter.
- WalletMerge.WalletTable.Upgrade: the currency column is not modelled, and amounts finer than a ten-thousandth of a kobo are not represented.
- Idempotency.IdempotencyRepository.Reserve: the random choice to sweep is a parameter; binding a ledger reference to a key is left out because it guards nothing.
- WebhookEvents.WebhookEventRepository.Mark: timestamps and the stored error text are left out.
- MigrationRuns.RunsFromMigratedTables: what wallets held at the start counts as carried over; it is not traced to charges from before the ledger, for which no record is complete.
- PaystackClient.Request: the transport is a list of answers, and bodies are reduced to the fields the client looks at.
- Width limits of NUMERIC(12,2), upper limits on agreement amounts and on the number of conditions at creation.
- The group parameter of `apply_entry`, which no caller passes, and manual adjustments, which have no route: the ledger results cover their kinds.
- The email lookup behind a new condition's required party: its answer is a parameter.
- Idempotency keys and rate limits around the money routes: a replayed response runs no route, and the reservations are proved separately.
- Redis caching, notifications, websockets, email, uploads, bank-account records, profiles, history queries, statistics and token rotation: they move no money and would add only easy members.
- Idempotency.OneRecordedExecution: speaks of executions under a reservation; OneExecution says when there are no others.
- Solvency.Solvent: equality for no withdrawal pending alone is false of the code; EqualWhenNonePending has the exact condition.
- LedgerProtocolTheorems.AnswersAreSequential: a caller refused for want of money while its own entry is stored is the one answer that is not the sequential one, as LedgerRace.LateFundIsReached and LedgerRace.LateReleaseIsReached show.
