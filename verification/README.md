# The relayer's stores and guards, proved

This project models the Goldcoin bridge's relayer and the parts of its
federation that decide what may be signed, and proves what those parts promise
over whole runs.

* **Withdrawals and payouts.** `WithdrawalStore` is the store: its tables, and
  what each operation does to them. `WithdrawalDb` is the same store as a class
  that updates its tables in place, each method proved equal to its
  specification. `WithdrawalLifecycle` is what its table of legal moves allows.
  `WithdrawalEffects` reads the same operations by tables: what each leaves in
  each column, and where every stored value came from.
  `WithdrawalInvariants`, `WithdrawalRuns` and
  `WithdrawalContracts` prove what holds over every run of the operations: no
  double payment, frozen inputs, guard isolation, a complete reassignment
  history, and what follows when the executor keeps its rules.
* **Indexing and deposits.** `BlockTree` is Goldcoin's chain as a tree of
  hashes; `DepositScan` finds vault outputs and recipient bindings;
  `DepositStore`, `DepositInvariants` and `DepositRuns` are the deposit tables
  and their invariants; `DepositEffects` reads the operations by columns and
  follows a deposit whose block leaves the branch; `DepositDb` is the class; `Indexer` is the tick. A node
  is one branch of the tree during a tick and any other branch at the next.
* **Signed bytes.** `PayoutIntent`, `SignedMessages`, `Hex` and `Bytes` are the
  codecs. `SignatureParser` and `ValidatorSet` are the on-chain program's
  strict parser of the signature instruction and its validator-set rules.
* **Checks beside the stores.** `Audit` re-verifies every stored commitment,
  `Completion` decides what a validator attests, `Solvency` balances both
  stores against the chain (`Sums` holds the facts about sums it needs).
* **Pipelines.** `Orchestrator` is the mint pipeline against a growing set of
  on-chain claims; `Peers`, `Rounds` and `Collector` are the signature rounds.
* **Script.** The pushes, the script parser and the splicing of the
  signature-ordering experiment.

SHA-256, signature verification, base58check and public-key text are function
parameters. Collision freedom is assumed only where a statement names the two
messages it is about. Calls to nodes and peers answer arbitrarily, clocks are
arbitrary but never go back, and concurrent processes take arbitrary steps in
between. A store operation is one transaction: it commits or leaves the tables
as they were. Every method and run starts from any state its precondition
admits, corrupted ones included where the code itself checks for corruption.

Where the code and its own comments differ, the model follows the code:

* the lifecycle table gives `Completed` no way out; the guard, which does not
  consult it, moves even a `Completed` withdrawal to `IntegrityHalted`;
* the guard's comment says any failure halts; a missing row, a missing payout
  and an undecodable change address return an error and halt nothing;
* `diff_payout_fields` is described as naming "inputs"; it names the whole tail,
  quorum and inputs together;
* the solvency check is described as having no slack at any point; its slack is
  what is owed and burned but not yet paid, as `Solvency.SlackExactly` states;
* the completion message is described as 134 bytes; the table beside that
  description, the constant and the code make it 146;
* the auditor's own field table for claims omits the action byte, so the name it
  gives is not modelled; attribution is proved for `diff_claim_fields`;
* the indexer never checks a block's parent against its own tip. The model
  assumes the node's branch is fixed during one tick, and nothing between ticks.

Results that are negative, or hold only under a condition:

* `PayoutIntent.RoundTrip` and `SignedMessages.RotationRoundTrip` hold exactly
  within the widths the code casts to; `PayoutIntent.VoutAliases` shows the
  collision outside them.
* `DepositRuns.SaturationIsSoundBelowMax`: the rolling cap is enforced exactly
  when it is below the largest u64; `DepositRuns.PromotionFitsExactly` says it of
  each promotion.
* `DepositRuns.SubmissionNeedsTheBlock`: the store lets a row be submitted after
  its block is gone; active rows stay on indexed blocks exactly when it is not.
  `DepositRuns.LateSubmissionLosesTrack` is a run where it is.
* `Solvency.CheckPassesExactly`: between a mint and its marking the check can
  fail although nothing is wrong; and a deposit mined again in another block,
  whose second row is marked against the one claim, makes the total of minted
  rows overstate what was minted, by exactly `Solvency.Repeats`. The exact
  conditions are stated.
* `Solvency.UnexplainedExactly`: the drift alarm is silent exactly when neither
  repeated rows nor reopened withdrawals have an amount.
* `WithdrawalContracts.HarmlessExactly`: the store itself does not keep payment
  claims justified; recording a signature, completing and a plain transition
  keep them exactly under the conditions stated for each.
* `Rounds.RetryExactlyWhen`: `retry_could_help` is right for every threshold
  exactly when no unavailable entry repeats a peer or names one that signed,
  which `Collector.Federation.Collect` guarantees;
  `Rounds.RetryCountsEntries` is a round where it is wrong.
* `DepositEffects.ReturnedBlockStaysOrphaned`: a deposit whose block is rolled
  back and then returns stays orphaned, because the insertion is ignored; and
  the log then reports it as freshly found (`ReturnedRowIsMisreported`). The log
  is faithful as long as no block comes back, and an insertion keeps it so
  exactly under the condition of `ScanTellsExactly`.
* `WithdrawalEffects.ReleaseUndoesReserve` holds exactly when the withdrawal held
  nothing before and no coin carried an old reservation time.
* `Hex.ReencodesExactly`: decoding then encoding gives the text back exactly when
  it has no sign and no upper-case letter.
* `Solvency.TotalMissesReopened`: the total paid out keys on the withdrawal's
  state, so it is what was ever paid exactly when no completed payout's
  withdrawal has left `Completed`; the guard can make one leave it.
* `Script.OneInputExactly`: for one input, splicing is right exactly when the old
  script is shorter than 0xfd bytes.
* `Completion.NeverTwoPayouts` leaves the height out: two attestations agree on
  it exactly when the node answers do (`Completion.HeightsAgreeExactly`), and
  they may not (`Completion.ReminedIsAttestedAgain`).

## Model

| member | source | states |
|---|---|---|
| WithdrawalRuns.NeverDoublePay | relayer/src/glc/withdrawal_db.rs:103-167 | Any two payouts the signing guard releases anywhere in any run, by what is released: no payout names a coin twice; for one withdrawal the released inputs are the same non-empty list of coins and scripts, position by position, with the same amounts and destination, and everything but the confirmations is identical unless the quorum was reassigned in between; for two withdrawals the released inputs share no coin. |
| WithdrawalRuns.GuardReleasesExactly | relayer/src/glc/withdrawal_db.rs:1013-1318 | The guard hands out a payout if and only if it is unsent, has inputs, every input is reserved by it with the committed amount, the stored intent is canonical and hashes to the commitment, and it pays the burned amount; it then commits nothing, and what it hands out is the stored payout column by column over the committed coins in their order, each with the script and confirmations the coin table has for it. |
| WithdrawalRuns.GuardFailureHalts | relayer/src/glc/withdrawal_db.rs:1018-1300 | A failing guard moves that withdrawal alone to `IntegrityHalted`, whatever its state was, except for a missing row, a missing payout or an undecodable change address, where nothing is written. |
| WithdrawalRuns.GuardIsIsolated | relayer/src/glc/withdrawal_db.rs:1013-1318 | Any run that does not sign, confirm, complete or reassign payout i leaves its guard succeeding, writing nothing and releasing the same payment out of the same coins under the same designation. |
| WithdrawalRuns.BuiltPayoutIsReleased | relayer/src/glc/withdrawal_db.rs:823-955 | Reserving the coins and creating a payout with its canonical intent for the burned amount makes the guard succeed, and keep succeeding through any such run, with the inputs, amounts, destination and designation that were built. |
| WithdrawalRuns.CommitmentPinsEveryField | relayer/src/glc/withdrawal_db.rs:1227-1318 | Two states in which the guard releases a withdrawal under one commitment agree on every committed amount, hash and attempt, and on the inputs and the quorum, absent a hash collision on the two intents, where the inputs and quorum are claimed only if both fit the encoding (fewer than 256 quorum members, output indices and input count below 2^32): tampering cannot pass. |
| WithdrawalRuns.SignedIsFinal | relayer/src/glc/withdrawal_db.rs:1323-1354 | After a signature is recorded the signed bytes, txid, quorum, intent, commitment and terms never change in any run, the guard always refuses and no reassignment has an effect. |
| WithdrawalRuns.CommittedInputsAreFrozen | relayer/src/glc/withdrawal_db.rs:746-955 | Inputs reserved by i when its payout is created stay reserved by i through any run without its completion, and stay spent through any run after it. |
| WithdrawalRuns.RunKeepsInputs | relayer/src/glc/withdrawal_db.rs:746-873 | Holding every committed input is kept by every run without the payout's own completion. |
| WithdrawalRuns.RunKeepsSpent | relayer/src/glc/withdrawal_db.rs:746-815 | Once the inputs of a completed payout are spent, no run makes one of them anything else. |
| WithdrawalRuns.CompletionSpends | relayer/src/glc/withdrawal_db.rs:1389-1422 | Completing a payout that holds its inputs spends all of them. |
| WithdrawalRuns.ReservationIsAtomic | relayer/src/glc/withdrawal_db.rs:823-850 | A failed reservation changes nothing; a successful one holds exactly the named coins, none of which was held before. |
| WithdrawalRuns.SupersededIsOnRecord | relayer/src/glc/withdrawal_db.rs:1436-1503 | In any run, a designation that was replaced is in the history with its attempt, quorum and commitment. |
| WithdrawalRuns.HistoryIsComplete | relayer/src/glc/withdrawal_db.rs:57-68 | With payouts created at attempt 0, the history of a payout is exactly the attempts 0 to n-1 in order, n being the current one, after any run. |
| WithdrawalRuns.StepKeepsHeld | relayer/src/glc/withdrawal_db.rs:746-873 | No single operation other than i's completion takes a reserved coin away from a payout. |
| WithdrawalContracts.RulesKeepSettled | relayer/src/glc/withdrawal_db.rs:1323-1422 | When signatures are recorded only while the guard releases the payout, only signed payouts are completed, and a plain transition never completes and returns only a signed payout to `Broadcast` (as after a reorganisation), every run keeps each payment-claiming state backed by a signed payout of the burned amount out of its own coins. |
| WithdrawalContracts.CompletedWasPaidOnce | relayer/src/glc/withdrawal_db.rs:1389-1422 | Under those rules a `Completed` withdrawal has a signed payout of exactly the burned amount out of spent coins that no other payout names. |
| WithdrawalContracts.HarmlessExactly | relayer/src/glc/withdrawal_db.rs:701-1422 | The weakest rules: from settled tables an operation leaves every payment claim justified if and only if it is harmless, and only recording a signature, completing and a plain transition have a condition at all. |
| WithdrawalContracts.SigningExactly | relayer/src/glc/withdrawal_db.rs:1323-1354 | Recording a signature keeps the tables settled if and only if the withdrawal does not exist, or its payout does and is signed already or pays the burned amount out of coins it holds. |
| WithdrawalContracts.CompletingExactly | relayer/src/glc/withdrawal_db.rs:1389-1422 | Completing keeps them settled if and only if there is nothing to complete or the payout is signed. |
| WithdrawalContracts.MovingExactly | relayer/src/glc/withdrawal_db.rs:701-740 | A plain transition keeps them settled if and only if it is refused, or the state it enters claims no payment that was not made. |
| WithdrawalContracts.SigningUncheckedBreaksSettled | relayer/src/glc/withdrawal_db.rs:1323-1354 | An input that fails: for a withdrawal without a payout the guard refuses, and the store still records the signature's broadcast, so a claim of payment has none behind it. |
| WithdrawalContracts.HarmlessRunsKeepSettled | relayer/src/glc/withdrawal_db.rs:701-1422 | Every run of harmless operations keeps the tables consistent and settled. |
| WithdrawalContracts.RunKeepsCanonical | relayer/src/glc/withdrawal_db.rs:916-955 | If payouts are created and reassigned with the canonical intent of their row, every payout row stays canonical in every run. |
| WithdrawalInvariants.RunGood | relayer/src/glc/withdrawal_db.rs:77-167 | Every run keeps the schema's constraints (accounts unique, payouts for existing requests, each outpoint in one payout, reservations with an owner, one history row per attempt) and never rewrites a request, a payout's terms, a superseded history row or a log row. |
| WithdrawalInvariants.StepGood | relayer/src/glc/withdrawal_db.rs:588-1575 | The same for each single operation. |
| WithdrawalInvariants.PayoutFrame | relayer/src/glc/withdrawal_db.rs:916-1503 | Which operation may change which part of an existing payout row, and that only creation makes one. |
| WithdrawalInvariants.WithdrawalFrame | relayer/src/glc/withdrawal_db.rs:588-740 | A withdrawal's request never changes, and its lifecycle state changes only as one of the five writing operations says; only an observation creates one. |
| WithdrawalEffects.RequestsAreObserved | relayer/src/glc/withdrawal_db.rs:588-624 | After any run every stored request is, in every column, that of its first accepted observation. |
| WithdrawalEffects.RequestsAppear | relayer/src/glc/withdrawal_db.rs:588-624 | A request appears exactly when an observation names a free index and a free account, and then stores the eight observed columns and no reason. |
| WithdrawalEffects.LifecycleMoves | relayer/src/glc/withdrawal_db.rs:701-740 | The lifecycle state and reason after each operation, by the condition under which it writes them; a halt stores the guard's reason. |
| WithdrawalEffects.LogTellsState | relayer/src/glc/withdrawal_db.rs:588-740 | The audit log is faithful: in every reachable state the last row about a withdrawal, reassignments aside, names the state it is in, and a withdrawal without a row does not exist. |
| WithdrawalEffects.StepLogs | relayer/src/glc/withdrawal_db.rs:588-1503 | An operation logs at most one row, and moves no state without one, nor the state of any withdrawal but the row's. |
| WithdrawalEffects.RowsSay | relayer/src/glc/withdrawal_db.rs:588-1503 | What the logged row says: the time, the reason, and the state before where the code reads it, `Signing` and `Confirming` where the code writes them outright. |
| WithdrawalEffects.HaltNamesTheFault | relayer/src/glc/withdrawal_db.rs:1013-1300 | The reason a guard halts for names the first check that fails, for inputs the first coin that does. |
| WithdrawalEffects.GuardRefusals | relayer/src/glc/withdrawal_db.rs:1013-1318 | Each error of the guard stands for exactly its class of faults. |
| WithdrawalEffects.MoveRefusals | relayer/src/glc/withdrawal_db.rs:701-740 | A move is refused as unknown exactly when the withdrawal does not exist, and as illegal exactly when the table lacks it. |
| WithdrawalEffects.RecoveryRefusals | relayer/src/glc/withdrawal_db.rs:1524-1575 | Which of the four refusals a recovery answers with, and that it goes through otherwise. |
| WithdrawalEffects.ReassignRefusals | relayer/src/glc/withdrawal_db.rs:1436-1503 | Which of the three refusals a reassignment answers with; the history's constraint is never one. |
| WithdrawalEffects.ReassignsExactly | relayer/src/glc/withdrawal_db.rs:1436-1503 | A reassignment goes through exactly with a note, before a signature and with an attempt left; every designation column is then the new one's, one attempt on, and the old one is recorded with time and reason. |
| WithdrawalEffects.PayoutColumns | relayer/src/glc/withdrawal_db.rs:1323-1422 | What each operation leaves in every column of a payout row but its designation. |
| WithdrawalEffects.PayoutsAppear | relayer/src/glc/withdrawal_db.rs:916-955 | A payout row appears exactly when one is created that no constraint refuses, as built and with nothing done yet. |
| WithdrawalEffects.SignatureIsTheFirst | relayer/src/glc/withdrawal_db.rs:1323-1354 | After any run a payout's signed bytes, txid and time are those of the first signature recorded since it exists. |
| WithdrawalEffects.ReportedExactly | relayer/src/glc/withdrawal_db.rs:746-790 | A reported coin carries its last report's confirmations and, unless reserved or spent, the maturity they give it; a new one carries its first report's amount and script; nothing else changes. |
| WithdrawalEffects.UnreportedStays | relayer/src/glc/withdrawal_db.rs:746-790 | A coin not reported stays as it was, or absent. |
| WithdrawalEffects.MissingExactly | relayer/src/glc/withdrawal_db.rs:792-815 | Exactly the available or unconfirmed coins whose txid was not reported become spent, nothing else about them or about any other coin changes, and the count is theirs. |
| WithdrawalEffects.ReservesExactly | relayer/src/glc/withdrawal_db.rs:823-850 | A reservation succeeds exactly when every named coin is available, none is named twice and the withdrawal exists; it then marks those coins with withdrawal and time, and no other. |
| WithdrawalEffects.ReleasesExactly | relayer/src/glc/withdrawal_db.rs:852-873 | A release is refused exactly once a payout exists; otherwise exactly the coins reserved by the withdrawal become available, without owner or time, and the count is theirs. |
| WithdrawalEffects.ReleaseUndoesReserve | relayer/src/glc/withdrawal_db.rs:823-873 | Releasing after reserving gives back the store as it was if and only if the withdrawal held nothing before and no named coin carried an old reservation time. |
| WithdrawalEffects.CompletesExactly | relayer/src/glc/withdrawal_db.rs:1389-1422 | Completion spends exactly the coins the withdrawal holds, on the txid of its signed transaction, and frees their reservation. |
| WithdrawalEffects.CoinsUntouched | relayer/src/glc/withdrawal_db.rs:916-1503 | No operation but the five on coins changes one. |
| WithdrawalInvariants.CurrentAttemptUnrecorded | relayer/src/glc/withdrawal_db.rs:1436-1503 | In a consistent store the current attempt is never already in the history, so the uniqueness constraint never blocks a reassignment. |
| WithdrawalInvariants.ReassignGood | relayer/src/glc/withdrawal_db.rs:1436-1503 | A reassignment keeps consistency and appends to the history. |
| WithdrawalInvariants.CreateGood | relayer/src/glc/withdrawal_db.rs:916-955 | Creating a payout keeps every outpoint owned by one payout. |
| WithdrawalInvariants.CompleteGood | relayer/src/glc/withdrawal_db.rs:1389-1422 | Completion keeps consistency and evolves rows only forwards. |
| WithdrawalInvariants.MarkMissingGood | relayer/src/glc/withdrawal_db.rs:792-815 | Retiring missing coins keeps consistency and never touches a reserved coin. |
| WithdrawalInvariants.SyncGood | relayer/src/glc/withdrawal_db.rs:746-790 | A node report keeps consistency and leaves reserved and spent coins as they are. |
| WithdrawalLifecycle.CompletedWasSignedAndConfirmed | relayer/src/glc/withdrawal_db.rs:264-296 | Every legal sequence of moves from observation to completion passes through signing, and ends by confirming. |
| WithdrawalLifecycle.TerminalStates | relayer/src/glc/withdrawal_db.rs:254-296 | Nothing leaves `Completed` or `Failed`, and those are the only such states; `IntegrityHalted` leaves only to recovery; exactly the non-terminal states may halt. |
| WithdrawalLifecycle.MovesInto | relayer/src/glc/withdrawal_db.rs:264-296 | From which states each state can be entered. |
| WithdrawalDb.Db.Observe | relayer/src/glc/withdrawal_db.rs:588-624 | Inserts unless the index or account is taken, and logs only an insertion; the new tables equal the specification's. |
| WithdrawalDb.Db.Transition | relayer/src/glc/withdrawal_db.rs:701-740 | Refuses illegal moves and missing rows without a write, otherwise sets the state and logs. |
| WithdrawalDb.Db.ClearHalt | relayer/src/glc/withdrawal_db.rs:1524-1575 | The four refusals in order; otherwise the recovery and its log row. |
| WithdrawalDb.Db.Sync | relayer/src/glc/withdrawal_db.rs:746-790 | The loop over reported coins computes the specified coin table. |
| WithdrawalDb.Db.MarkMissing | relayer/src/glc/withdrawal_db.rs:792-815 | Spends every free coin whose txid is absent, comparing txids only, and returns how many. |
| WithdrawalDb.Db.Reserve | relayer/src/glc/withdrawal_db.rs:823-850 | The loop reserves all named coins or leaves the table as it was; the error is a constraint violation exactly when the first coin is available and the withdrawal does not exist, and an invalid reservation in every other refusal. |
| WithdrawalDb.Db.Release | relayer/src/glc/withdrawal_db.rs:852-873 | Refuses when a payout exists; otherwise frees exactly the coins held. |
| WithdrawalDb.Db.Create | relayer/src/glc/withdrawal_db.rs:916-955 | Succeeds exactly when every key and uniqueness constraint allows it, and then stores the row with its ordered inputs. |
| WithdrawalDb.Db.RecordSigned | relayer/src/glc/withdrawal_db.rs:1323-1354 | Writes the signed bytes only once; always moves the withdrawal to `Broadcast` and logs. |
| WithdrawalDb.Db.RecordBroadcast | relayer/src/glc/withdrawal_db.rs:1356-1363 | Keeps the first broadcast time. |
| WithdrawalDb.Db.RecordConfirmations | relayer/src/glc/withdrawal_db.rs:1365-1387 | Overwrites the count, keeps block data it is not given. |
| WithdrawalDb.Db.RecordOnchainCompletion | relayer/src/glc/withdrawal_db.rs:1777-1795 | Records the on-chain completion on an existing payout. |
| WithdrawalDb.Db.CompletePayout | relayer/src/glc/withdrawal_db.rs:1389-1422 | Completes the payout, spends exactly the coins held and moves the withdrawal, in one commit. |
| WithdrawalDb.Db.Reassign | relayer/src/glc/withdrawal_db.rs:1436-1503 | The refusals in order; otherwise history, designation, attempt and log move together. |
| WithdrawalDb.Db.VerifyAndLoadSignable | relayer/src/glc/withdrawal_db.rs:1013-1318 | The whole guard sequence, with its halts committed, equals the specified verdict. |
| WithdrawalDb.Db.LoadHeldInputs | relayer/src/glc/withdrawal_db.rs:1147-1225 | The loop over committed inputs stops at the first that no longer backs the payout, with that coin's fault, and otherwise loads each coin at its own position. |
| WithdrawalDb.Db.VerifyCommitment | relayer/src/glc/withdrawal_db.rs:1227-1318 | The two commitment comparisons and the burned-amount check, in order. |
| PayoutIntent.CanonicalPayoutIntent | relayer/src/glc/withdrawal_db.rs:480-515 | The appending loop produces the specified encoding. |
| PayoutIntent.FixedLayout | relayer/src/glc/withdrawal_db.rs:450-503 | Every fixed field sits at its offset. |
| PayoutIntent.TailLayout | relayer/src/glc/withdrawal_db.rs:504-515 | After the fixed part come the quorum's size and members, the input count, and each input's txid, index and amount at its own place. |
| PayoutIntent.RoundTrip | relayer/src/glc/withdrawal_db.rs:480-515 | The decoder recovers the intent exactly when it is in bounds: quorum count below 256, input count and indices below 2^32. |
| PayoutIntent.EncodeInjective | relayer/src/glc/withdrawal_db.rs:480-515 | Intents in bounds with the same bytes are equal. |
| PayoutIntent.VoutAliases | relayer/src/glc/withdrawal_db.rs:510-512 | Out of bounds the encoding is ambiguous: an index and the index plus 2^32 encode alike. |
| PayoutIntent.AttemptsDiffer | relayer/src/glc/withdrawal_db.rs:472-477 | Intents of different quorum attempts always have different bytes. |
| PayoutIntent.AttributionNamesExactly | relayer/src/glc/withdrawal_db.rs:544-564 | For any two byte strings, canonical or not: nothing is named exactly when they are equal or one is shorter than the fixed part; otherwise exactly the fixed fields that differ are named, and the tail when it differs, in layout order and once each. |
| PayoutIntent.AttributionIsExact | relayer/src/glc/withdrawal_db.rs:544-564 | So between two in-bounds intents the names are exactly the quantities that changed. |
| Bytes.LEByte | shared/src/claim.rs:55-78 | Byte k of an encoded integer is its k-th digit in base 256, least significant first. |
| SignedMessages.BuildDepositClaim | shared/src/claim.rs:55-78 | The in-place builder fills the specified 166 bytes. |
| SignedMessages.BuildCompletion | shared/src/claim.rs:119-142 | The in-place builder fills the specified 146 bytes. |
| SignedMessages.BuildGovernance | shared/src/governance.rs:74-97 | The in-place builder fills the specified 90 bytes. |
| SignedMessages.BuildRotationParams | shared/src/governance.rs:101-110 | The appending loop produces the specified bytes. |
| SignedMessages.RotationLayout | shared/src/governance.rs:101-110 | The threshold, the count and each validator sit at their own places. |
| SignedMessages.ClaimRoundTrip | shared/src/claim.rs:55-78 | Decoding an encoded deposit claim gives it back. |
| SignedMessages.ClaimDecodesOnlyEncodings | shared/src/claim.rs:55-78 | Whatever decodes as a deposit claim is the encoding of what it decodes to. |
| SignedMessages.CompletionRoundTrip | shared/src/claim.rs:119-142 | Decoding an encoded completion gives it back. |
| SignedMessages.GovernanceRoundTrip | shared/src/governance.rs:74-97 | Decoding an encoded governance message gives it back. |
| SignedMessages.RotationRoundTrip | shared/src/governance.rs:101-110 | Rotation parameters decode back exactly when fewer than 2^32 validators are named. |
| SignedMessages.CancelRoundTrip | shared/src/governance.rs:116-121 | Cancel parameters decode back. |
| SignedMessages.FamiliesDisjoint | shared/src/governance.rs:30-33 | No byte string belongs to two of the four signed families. |
| SignedMessages.ClaimAttributionIsComplete | relayer/src/glc/db.rs:284-318 | The claim fields cover every byte: two full-length messages differ if and only if a field is named. |
| SignedMessages.ClaimAttributionIsExact | relayer/src/glc/db.rs:284-318 | Between the messages of two claims exactly the quantities that differ are named. |
| Hex.EncodeBytes | relayer/src/glc/hex.rs:25-31 | The encoding loop equals the specified text. |
| Hex.DecodeVec | relayer/src/glc/hex.rs:55-66 | The decoding loop, with its odd-length and digit errors, equals the specified decoder. |
| Hex.RoundTrip | relayer/src/glc/hex.rs:25-66 | Decoding an encoding gives the bytes back. |
| Hex.EncodeInjective | relayer/src/glc/hex.rs:25-31 | Different bytes have different text. |
| Hex.EncodesInOrder | relayer/src/glc/hex.rs:25-31 | Byte k is written at 2k as its high and its low digit, digits and lower-case letters in the order of their value. |
| Hex.EqIgnoreCaseExactly | relayer/src/glc/deposit.rs:59-61 | Two texts are equal up to ASCII case exactly when they have one length and at each position the same character or the two cases of one letter. |
| Hex.SameBytesExactly | relayer/src/glc/deposit.rs:59-61 | Against a text that decodes, equality up to case is equality of the decoded bytes with signs in the same places; between texts of digits it is equality of the bytes. |
| Hex.ReencodesExactly | relayer/src/glc/hex.rs:25-66 | A text that decodes is what its bytes encode to if and only if it has only digits and lower-case letters. |
| Hex.SignsAreAccepted | relayer/src/glc/hex.rs:34-52 | Decoding is not injective: two texts, one with a sign, decode alike. |
| DepositScan.ExtractRecipientBinding | relayer/src/glc/deposit.rs:68-98 | The loop over outputs returns the specified binding or error. |
| DepositScan.BoundExactly | relayer/src/glc/deposit.rs:68-98 | A recipient is bound exactly when the transaction has one decodable OP_RETURN output and its script is 6a 20 and that recipient's 32 bytes. |
| DepositScan.UnboundExactly | relayer/src/glc/deposit.rs:68-98 | Each binding error stands for its fault: no OP_RETURN, a first one of another form, or a second one after a good first. |
| DepositScan.StartsAsCandidateExactly | relayer/src/glc/indexer.rs:277-288 | A vault output starts as a candidate for a recipient exactly when its transaction binds that recipient and the amount meets the minimum; every other one starts `Failed` with a reason. |
| DepositScan.ScanFindsExactly | relayer/src/glc/deposit.rs:105-117 | A block's scan yields exactly the outputs whose script is the vault's, letter by letter up to case, which is byte by byte once decoded; each candidate carries its output's txid, index and amount, the block's place and time, and the state, reason and recipient its transaction's binding and the minimum give it. |
| DepositScan.PaysVaultExactly | relayer/src/glc/deposit.rs:59-61 | An output pays the vault exactly when its decoded script is the vault's decoded script. |
| DepositScan.CandidateExactly | relayer/src/glc/indexer.rs:270-316 | A candidate is the one of an output exactly when it records that output and place and is classified by the transaction's binding and the minimum. |
| DepositScan.VaultOutputsInOrder | relayer/src/glc/deposit.rs:105-117 | Vault outputs come in the transaction's order, each once. |
| DepositScan.ScanTx | relayer/src/glc/indexer.rs:270-316 | The loop over one transaction's vault outputs yields the specified candidates, in order; what those are is `DepositScan.ScanFindsExactly`. |
| DepositScan.ScanBlock | relayer/src/glc/indexer.rs:261-317 | The loop over the block yields the specified candidates, in order; what those are is `DepositScan.ScanFindsExactly`. |
| BlockTree.AgreementGoesDown | relayer/src/glc/indexer.rs:224-243 | Branches that agree at one height agree below it. |
| DepositInvariants.IngestKeeps | relayer/src/glc/db.rs:406-474 | Indexing the next block keeps every invariant, keeps all rows, and each row added starts as the scan classified one of the block's vault outputs. |
| DepositInvariants.RollbackKeeps | relayer/src/glc/db.rs:478-539 | A rollback keeps every invariant and every row's record. |
| DepositInvariants.RowUpdateKeeps | relayer/src/glc/db.rs:545-594 | A one-row transition keeps the invariants when the new state is inactive or its block is indexed. |
| DepositRuns.RunKeeps | relayer/src/glc/db.rs:406-594 | At every commit of any run, under any sequence of live chains: the index is one contiguous branch to the recorded tip, active rows sit on it, rows are unique by outpoint and block, every vault output has its row, and no row is lost or changes what it records. |
| DepositRuns.EveryVaultOutputOwnsOneRow | relayer/src/glc/db.rs:430-471 | In every reachable state each vault output of each indexed block above genesis owns exactly one row, and each row records such an output. |
| DepositRuns.OneActiveRowPerOutpoint | relayer/src/glc/db.rs:162-170 | Given that a txid occurs once per branch, two active rows never share an outpoint. |
| DepositRuns.SubmissionNeedsTheBlock | relayer/src/glc/db.rs:824-854 | Marking a row submitted keeps active rows on indexed blocks if and only if its own block is still indexed: the store does not check it. |
| DepositRuns.LateSubmissionLosesTrack | relayer/src/glc/db.rs:824-854 | An input that fails: an active row above the fork, rolled back and then marked submitted, is an active row whose block is not indexed. |
| DepositRuns.CapHoldsThroughout | relayer/src/glc/indexer.rs:395-401 | With a clock that never goes back and a cap below the largest u64, at every instant the deposits made ready within the window sum to at most the cap, so the unchecked sum never overflows. |
| DepositRuns.FitsCapExactly | relayer/src/glc/indexer.rs:395-401 | The check passes exactly when the row fits beside what is already in the window, or the cap is the largest u64. |
| DepositRuns.SaturationIsSoundBelowMax | relayer/src/glc/indexer.rs:397-400 | The saturating comparison enforces the cap if and only if the cap is below the largest u64. |
| DepositRuns.PromotionFitsExactly | relayer/src/glc/indexer.rs:395-401 | In any reachable table, a promotion the check lets through leaves the window within its cap at the instant of the check if and only if the exact total, with the new row, fits 64 bits. |
| DepositRuns.SumShrinks | relayer/src/glc/db.rs:982-994 | A later window start never sums to more. |
| DepositRuns.RunKeepsClaims | relayer/src/glc/db.rs:624-741 | In every reachable state each frozen claim still matches its row, so the claim guard never halts one. |
| DepositRuns.ReadinessFrame | relayer/src/glc/db.rs:545-567 | Only a promotion sets a ready time. |
| DepositStore.ClaimGuardReleasesExactly | relayer/src/glc/db.rs:624-741 | The claim guard answers if and only if the frozen claim is intact; it then writes nothing and hands out the artifact's own message, with the row's txid, output, amount and recipient and the artifact's version, epoch, program and mint. |
| DepositEffects.ClaimHaltsExactly | relayer/src/glc/db.rs:624-730 | A claim that is not intact is halted alone, with the reason for the disagreement and a log row of both hashes and the fields that differ. |
| DepositEffects.IngestsExactly | relayer/src/glc/db.rs:406-471 | Indexing a block stores it and makes its hash the tip, adds rows only for its vault outputs, each saying what its output says, and leaves every vault output of the block with a row. |
| DepositEffects.RollsBackExactly | relayer/src/glc/db.rs:478-539 | A rollback orphans exactly the rows above the fork on their way to a mint, forgets exactly the blocks above it, and records the event with the count and one log row for each in id order. |
| DepositEffects.MovesExactly | relayer/src/glc/db.rs:545-594 | A transition is refused exactly for a missing row or a second artifact; otherwise it writes the state, the ready time only when made ready, the reason and artifact only when given, and one log row. |
| DepositEffects.SubmitsExactly | relayer/src/glc/db.rs:824-854 | A submission writes state and signature of an existing row, whatever its state, and one log row. |
| DepositEffects.RecoversExactly | relayer/src/glc/db.rs:764-819 | A recovery goes through exactly for a halted row, a note that says something and one of two targets, and writes state, note and log row. |
| DepositEffects.RecoveryRefusals | relayer/src/glc/db.rs:764-819 | Which of the four refusals a recovery answers with. |
| DepositEffects.ReadySumExactly | relayer/src/glc/db.rs:982-994 | The window's total is the sum over the rows whose ready time is at or after the start. |
| DepositEffects.MintedTotalExactly | relayer/src/glc/db.rs:1010-1027 | The minted total is the sum over the minted rows. |
| DepositEffects.LogTellsState | relayer/src/glc/db.rs:430-594 | In every reachable state of a run in which no block comes back, the last log row about a deposit names the state it is in. |
| DepositEffects.ScanTellsExactly | relayer/src/glc/db.rs:448-471 | Scanning an output keeps the log faithful if and only if its row is new or still in its starting state. |
| DepositEffects.ReturnedRowIsMisreported | relayer/src/glc/db.rs:430-471 | When a block comes back, the insertion is ignored and the log row is written all the same. |
| DepositEffects.OrphanedIsFinal | relayer/src/glc/db.rs:478-539 | An orphaned row stays orphaned in every run. |
| DepositEffects.ReturnedBlockStaysOrphaned | relayer/src/glc/db.rs:430-539 | So a deposit whose block leaves the branch and returns keeps its one orphaned row in that block, and no run makes another. |
| DepositDb.Db.IngestBlock | relayer/src/glc/db.rs:406-474 | The transaction over block, tip and candidates equals the specified commit. |
| DepositDb.Db.RollbackReorg | relayer/src/glc/db.rs:478-539 | The loop orphans exactly the active rows above the fork, logs each once, and truncates the index. |
| DepositDb.Db.TransitionState | relayer/src/glc/db.rs:545-594 | State, ready time, reason, log and artifact move in one commit, or nothing does. |
| DepositDb.Db.MarkSubmitted | relayer/src/glc/db.rs:824-854 | Sets `Submitted` and the signature whatever the state was. |
| DepositDb.Db.MarkMinted | relayer/src/glc/db.rs:859-861 | Sets `Minted`. |
| DepositDb.Db.OperatorClearHalt | relayer/src/glc/db.rs:764-819 | The four refusals in order; otherwise the recovery and its log row. |
| DepositDb.Db.VerifyAndLoadSignable | relayer/src/glc/db.rs:624-741 | The reload-and-recompute guard, with its committed halt, equals the specified one. |
| DepositDb.Db.CandidatesByState | relayer/src/glc/db.rs:935-950 | Exactly the rows in that state, in id order. |
| DepositDb.Db.ReadyAmountSumSince | relayer/src/glc/db.rs:982-994 | The summing loop over ready rows. |
| DepositDb.Db.MintedDepositTotal | relayer/src/glc/db.rs:1016-1027 | The summing loop over minted rows. |
| Indexer.Indexer.FindForkPoint | relayer/src/glc/indexer.rs:224-243 | The walk back ends with the highest agreement within the configured depth, or with none in that range, or with a node error, which a reliable node that reaches the tip never causes. |
| Indexer.Indexer.Tick | relayer/src/glc/indexer.rs:160-216 | Every commit of a tick, finished or not, is sound and loses no row; frozen claims are kept, each one added is for the configured version, program, epoch and mint and says what its row says, and each row made ready has one of its own; a finished tick leaves the index equal to the node's branch at every height, no row unadvanced, and every row still confirming has its reason: it is not deep enough, or it is unspent and over the flat cap, or it is unspent and at some instant of the tick the rolling window, on the table its evaluation saw, had no room for it; so a spent deep row never stays. A row becomes ready only if deep enough, unspent and within the flat cap, fails only if deep enough and spent or rejected when found, is orphaned only if off the branch, and enters no state of the mint pipeline; the tick halts, writing nothing, exactly when no agreement lies within the depth (for a reliable node that reaches the tip), and a halt is permanent; the summary reports the fork truthfully. |
| Indexer.Indexer.IndexBlock | relayer/src/glc/indexer.rs:245-327 | Indexing one more block of the node's branch extends the mirror by it, with its parent's hash and a time within the call; a failure writes nothing. |
| Indexer.Indexer.AdvanceNewCandidates | relayer/src/glc/indexer.rs:335-351 | Every candidate becomes confirming; no other row, no artifact and no block changes. |
| Indexer.Indexer.PromoteRow | relayer/src/glc/indexer.rs:361-430 | One confirming row fails deep enough and spent, becomes ready and promotable, or, when no call fails, stays for a stated reason: not deep enough, or unspent and held back by the flat cap or by a window without room at some instant of the call. |
| Indexer.Indexer.PromoteConfirming | relayer/src/glc/indexer.rs:358-430 | The loop changes only confirming rows, each as one evaluation may leave it; if no call fails, every row left confirming has its reason on the table its evaluation saw, with the rows before it done and the rows after it untouched. |
| Indexer.Indexer.BuildArtifact | relayer/src/glc/indexer.rs:403-423 | The frozen artifact is for the configured version, program, epoch and mint, its message is the claim of the row's txid, output, amount and recipient under them, and its hash is the message's. |
| Indexer.FrozeTransitive | relayer/src/glc/indexer.rs:403-423 | That frozen claims are kept, that those added are as configured, and that each row made ready has one of its own compose over the steps of a tick. |
| Indexer.Indexer.RollBackTo | relayer/src/glc/indexer.rs:180-202 | After a rollback the index mirrors the node's branch up to the fork. |
| Indexer.IndexStep | relayer/src/glc/indexer.rs:245-327 | Indexing the next block keeps the store sound, and each row it adds waits or was rejected for cause. |
| Indexer.RollbackStep | relayer/src/glc/db.rs:478-539 | Rolling back to the fork keeps the store sound and orphans only rows off the node's branch. |
| Indexer.MirrorsToFork | relayer/src/glc/indexer.rs:224-243 | Agreement at the fork is agreement at every height below it. |
| SignatureParser.CountUniqueValidatorSigners | programs/glc-bridge/src/verification.rs:52-141 | The parser, with its 16-bit mask, returns the specified verdict with the exact error, never reads out of bounds, and accepts exactly the acceptable instructions. |
| SignatureParser.CheckEntry | programs/glc-bridge/src/verification.rs:66-128 | The checks of one entry, in order, yield the signer's position or the first failed check. |
| SignatureParser.ParseExactly | programs/glc-bridge/src/verification.rs:52-141 | It counts k if and only if the bytes hold k entries, k at least 1, each in bounds, self-referential and over exactly the expected message, by k different validators within the first 16 positions. |
| SignatureParser.RejectsExactly | programs/glc-bridge/src/verification.rs:52-141 | It answers with an error if and only if that is the header's, or the first entry refused is refused with it: for its framing, its message, its key, or as a repeated signer. |
| SignatureParser.CountIsDistinctValidators | programs/glc-bridge/src/verification.rs:45-52 | A count of k is witnessed by k different members of the validator set, so it never exceeds its size. |
| SignatureParser.MaskGrows | programs/glc-bridge/src/verification.rs:130-136 | The 16-bit mask holds exactly the positions seen. |
| SignatureParser.BitsDiffer | programs/glc-bridge/src/verification.rs:131-135 | The bits of two positions overlap exactly when the positions are equal. |
| SignatureParser.Build | programs/glc-bridge/src/verification.rs:155-183 | The reference builder writes a well-formed instruction for its signers and message. |
| SignatureParser.BuiltParses | programs/glc-bridge/src/verification.rs:155-183 | A built instruction over 1 to 255 signers parses to its size if and only if the signers are distinct validators within the mask and the message has at most 65535 bytes. |
| ValidatorSet.ValidateValidatorSet | programs/glc-bridge/src/validation.rs:14-44 | The checks and the nested loop report the first rule broken in the documented order, and nothing exactly when every rule holds. |
| ValidatorSet.FirstFaultExactly | programs/glc-bridge/src/validation.rs:14-44 | The fault reported is rule k if and only if the set breaks it and none of the k rules before it. |
| ValidatorSet.ValidatedSubsetCounts | programs/glc-bridge/src/validation.rs:11-14 | Any non-empty distinct group of a validated set is counted in full exactly when the message fits a 16-bit length. |
| ValidatorSet.ThresholdIsReachable | programs/glc-bridge/src/validation.rs:20-24 | The whole of a validated set reaches its threshold. |
| Audit.AuditAll | relayer/src/ops/audit.rs:260-287 | One read-only walk checks every claim and payout once, in order, and finds nothing exactly when structure, claims and payouts are all sound. |
| Audit.ClaimFindingsExactly | relayer/src/ops/audit.rs:260-287 | A claim finding is reported exactly when the check of some listed claim finds it. |
| Audit.PayoutFindingsExactly | relayer/src/ops/audit.rs:260-287 | A payout finding is reported exactly when the check of some listed payout finds it. |
| Audit.CleanClaimsAreSignable | relayer/src/ops/audit.rs:144-168 | The claims audit is clean if and only if the signing guard would hand out every claim. |
| Audit.CleanPayoutsOnlyStopOutside | relayer/src/ops/audit.rs:197-244 | After a clean payout audit the payout guard succeeds if and only if the payout is unsent, its coins back it and it pays the burned amount. |
| Audit.GuardRefinesAudit | relayer/src/ops/audit.rs:197-244 | In any store, audited clean or not, the payout guard releases a payout if and only if the audit's check passes that row, it is unsent, its coins back it and it pays the burned amount: whatever the guard releases, the audit finds nothing wrong with. |
| Audit.AllPayoutIntents | relayer/src/glc/withdrawal_db.rs:633-664 | Exactly the payouts with their requests, in index order. |
| Audit.PayoutFindingExactly | relayer/src/ops/audit.rs:197-244 | Which finding stands for which fault of a payout row. |
| Audit.AllClaimArtifacts | relayer/src/glc/db.rs:893-923 | Exactly the deposits with their artifacts, each once, in id order. |
| Audit.ReachableIsClean | relayer/src/ops/audit.rs:260-287 | In every state either store can reach through canonical payouts and reassignments, the audit has no claim or payout finding. |
| Completion.AttestsExactly | relayer/src/p2p/completion_view.rs:111-212 | A validator attests if and only if its own store says completed by exactly the requested transaction and its node sees it deep enough at the requested height; the attestation repeats the request, its txid is the signed payout's, and its amount and destination are the stored request's. |
| Completion.CastKeepsBits | relayer/src/p2p/completion_view.rs:193-197 | The cast of the reported height keeps its 64 bits. |
| Completion.NeverTwoPayouts | relayer/src/p2p/completion_view.rs:111-212 | Over any run and any answers, two attestations for one withdrawal name the txid both requests named, which is that of the signed payout in the store, and the amount and destination of the stored request. |
| Completion.HeightsAgreeExactly | relayer/src/p2p/completion_view.rs:193-201 | The heights of two attestations agree if and only if the heights the nodes reported do. |
| Completion.ReminedIsAttestedAgain | relayer/src/p2p/completion_view.rs:169-212 | The same payout is attested again at whatever height the node next reports for it. |
| Completion.AttestedWasPaid | relayer/src/p2p/completion_view.rs:121-137 | Under the executor's rules the attested amount is that of the signed payout, whose coins are spent and in no other payout. |
| Completion.LocalStateIsNeverMalformed | relayer/src/p2p/completion_view.rs:139-154 | Under those rules a completed withdrawal always has its payout and txid. |
| Solvency.CompletedPayoutTotal | relayer/src/glc/withdrawal_db.rs:1697-1726 | The sum over payouts of completed withdrawals. |
| Solvency.VaultFeesPaidTotal | relayer/src/glc/withdrawal_db.rs:1706-1726 | The sum of the fees of completed payouts. |
| Solvency.SnapshotFromDb | relayer/src/ops/solvency.rs:115-127 | The snapshot is the two stores' totals and the chain's readings, and there is none exactly when a total does not fit 64 bits. |
| Solvency.PaidIsBurned | relayer/src/glc/withdrawal_db.rs:1285-1300 | Under the executor's rules burned amounts are what was paid out plus what is owed. |
| Solvency.RunKeepsBooks | relayer/src/ops/solvency.rs:8-16 | Every run of mints, burns, marks, observations and store operations conserves value, also when a deposit mined again in another block leaves a second minted row: supply, known burns and unknown burns sum to what the claim accounts minted, each for the amount of a recorded row, and every minted row has its outpoint's claim. |
| Solvency.SlackExactly | relayer/src/ops/solvency.rs:8-16 | In every reachable state bound minus supply is what is owed and burned-unobserved, plus the amounts of minted rows that repeat another's outpoint, less what is minted-unmarked. |
| Solvency.MintedSumExactly | relayer/src/glc/db.rs:1010-1027 | The total of minted rows is what the claim accounts minted, less the mints no row is marked for, plus the rows that repeat an outpoint. |
| Solvency.NoRepeatsExactly | relayer/src/glc/db.rs:1010-1027 | It overstates by nothing if and only if no two minted rows, the later with an amount, share an outpoint. |
| Solvency.CheckPassesExactly | relayer/src/ops/solvency.rs:58-75 | The check passes if and only if unmarked mints are covered by what is owed and unobserved and by repeated rows, or nothing circulates, and otherwise reports exactly the shortfall, up to the supply; with every mint marked it always passes, and its slack is what is owed and unobserved if and only if no two minted rows with an amount share an outpoint. |
| Solvency.TotalMissesReopened | relayer/src/glc/withdrawal_db.rs:1716-1726 | What was ever paid is the total reported plus the payouts of withdrawals that left `Completed`; the two are equal if and only if no such payout has an amount. |
| Solvency.UnexplainedExactly | relayer/src/ops/solvency.rs:83-110 | For a vault that received each marked outpoint once and that only completed payouts and their fees have left, the unexplained drift is exactly the repeated rows plus the payouts and fees of withdrawals that left `Completed`, and drift is explained by fees if and only if there are none. |
| Orchestrator.MintedMeansClaimed | relayer/src/orchestrator.rs:151-289 | Under any interleaving of any number of workers on stale rows, indexing, recovery, other relayers' mints and crashes, a minted row's claim exists on-chain, no outpoint is minted twice, and everything sent is the frozen message of a recorded deposit, for its txid, output, amount and recipient and for the program, mint and epoch it was frozen for. |
| Orchestrator.RunKeepsSafe | relayer/src/orchestrator.rs:151-289 | Each such run keeps the safety invariant, including what every worker knows. |
| Orchestrator.EventKeepsSafe | relayer/src/orchestrator.rs:169-289 | So does each single step. |
| Orchestrator.Pipeline.ProcessOne | relayer/src/orchestrator.rs:169-289 | With other processes running between any two steps: when the claim exists at entry nothing is sent and the only success is reconciliation; it marks a row minted only after seeing its claim; whatever it sends is this row's own frozen message, for this program, and its claim is the row's txid, output, amount and recipient. |
| Orchestrator.Pipeline.Tick | relayer/src/orchestrator.rs:151-167 | Visits every waiting row and counts each outcome once, unless a call fails. |
| Orchestrator.Solana.ExecuteMint | relayer/src/orchestrator.rs:10-19 | A claim account is created once; a second mint of it changes nothing. |
| Peers.ParsePeers | relayer/src/p2p/identity.rs:75-109 | Accepts exactly the usable lists, reads each entry in order, and otherwise reports the first bad entry's own fault. |
| Peers.FaultExactly | relayer/src/p2p/identity.rs:75-109 | Which error stands for which fault of an entry, after the peers already read. |
| Peers.WithLocalSigner | relayer/src/p2p/identity.rs:134-159 | Adds the own signer exactly when it has an address that no peer has and is not listed; keys stay distinct. |
| Peers.TrimsEnds | relayer/src/p2p/identity.rs:134-159 | A trimmed address is the given one without white space before and after it, and nothing else. |
| Rounds.Round.Record | relayer/src/p2p/aggregation.rs:59-65 | Each outcome lands in exactly one list. |
| Rounds.RetryExactlyWhen | relayer/src/p2p/aggregation.rs:90-96 | The answer is right for every threshold if and only if the unavailable entries are different peers, none of whom signed. |
| Rounds.RetryExactly | relayer/src/p2p/aggregation.rs:90-96 | Hence right whenever each peer was recorded at most once, as `Collector.Federation.Collect` leaves it. |
| Rounds.RetryNeverGivesUpEarly | relayer/src/p2p/aggregation.rs:83-96 | In any round it never answers no to a gap the unavailable peers could close. |
| Rounds.RetryCountsEntries | relayer/src/p2p/aggregation.rs:90-96 | It counts entries, not peers: one peer recorded as unavailable twice is counted for two. |
| Rounds.AskOrderRotates | relayer/src/p2p/aggregation.rs:126-134 | The ask order is the peer list rotated by the seed. |
| Rounds.AskOrderIsPermutation | relayer/src/p2p/aggregation.rs:126-134 | It is a permutation. |
| Collector.Federation.Collect | relayer/src/p2p/collector.rs:189-227 | The round ends with the threshold of distinct verified peers, never more, or with every peer recorded exactly once. |
| Collector.AcceptedExactly | relayer/src/p2p/collector.rs:132-152 | An answer is counted if and only if it names the asked peer, carries a 64-byte signature and that signature verifies over the message asked about. |
| Collector.AcceptedPartialExactly | relayer/src/p2p/collector.rs:763-800 | A partial is counted if and only if it names the asked signer, carries that signer's own 33-byte vault key and at least one signature, none of them empty. |
| Collector.Federation.CollectPayoutSignatures | relayer/src/p2p/collector.rs:236-289 | Exactly the designated signers are recorded, once each in order, with no substitution; every signature is a designated peer's and verifies, and distinct designated signers are counted once each. |
| Collector.Federation.CollectPayoutPartials | relayer/src/p2p/collector.rs:321-401 | The same for partials, each matching the vault key of the signer it is counted for; distinct signers give distinct signers counted. |
| Collector.Federation.CollectSweepPartials | relayer/src/p2p/collector.rs:413-481 | Asks signers in order; never more partials than the threshold, and fewer only when all were asked; with distinct signers no two partials are counted for one signer. |
| Script.ParseScript | docs/experiments/phase7e-04-signature-ordering.py:57-72 | The cursor loop returns the specified items or fails at the end of the script. |
| Script.PushesRoundTrip | docs/experiments/phase7e-04-signature-ordering.py:40-72 | Concatenated pushes parse back to the items, for every length up to 65535. |
| Script.OpcodeParses | docs/experiments/phase7e-04-signature-ordering.py:57-72 | Any byte above 0x4d is an item of itself. |
| Script.CutPushParses | docs/experiments/phase7e-04-signature-ordering.py:57-72 | A short push cut off by the end of the script yields the bytes that are there. |
| Script.MissingLengthFails | docs/experiments/phase7e-04-signature-ordering.py:57-72 | A one-byte length that is missing fails. |
| Script.Splice | docs/experiments/phase7e-04-signature-ordering.py:75-88 | The splicing loop writes the specified bytes or fails. |
| Script.TxRoundTrip | docs/experiments/phase7e-04-signature-ordering.py:49-54 | A reader written from the wire format recovers every serialised transaction. |
| Script.SpliceReplacesScriptsOnly | docs/experiments/phase7e-04-signature-ordering.py:75-88 | For fewer than 0xfd inputs with old scripts under 0xfd bytes, the result re-parses to the original with only the scripts replaced. |
| Script.OneInputExactly | docs/experiments/phase7e-04-signature-ordering.py:75-88 | For a one-input transaction the result is the intended bytes if and only if the old script is shorter than 0xfd bytes. |
| Script.TooFewScripts | docs/experiments/phase7e-04-signature-ordering.py:75-88 | With fewer scripts than inputs there is no result. |

## Left out

- SQLite, its migrations, write-ahead log and pragmas: only transaction atomicity, keys, uniqueness and CHECK constraints are kept.
- RPC clients, gRPC, TLS, timeouts and retries as mechanisms: a call answers or fails.
- SHA-256, ed25519, secp256k1, base58check and base58 public keys: parameters of the model.
- The executor, `multisig`, `signer::aggregate`, `p2p::policy`, `p2p::service` and the on-chain instruction handlers are not part of this model; only the executor's contract with the store is stated.
- Floating-point amounts (`glc_to_atomic`): amounts are atomic units on arrival.
- Columns that only repeat or carry text: `raw_tx_hex`, the hex copies of txids, block times, log message formatting and report summaries.
- `available_utxos` and its ordering by little-endian amount: coin selection reads it, nothing proved here depends on the order.
- `first_differing_claim_field`: its offsets omit the action byte, so the field it names is not always the right one.
- `find_vault_outputs`: the success path of the two functions that are modelled; the indexer does not call it.
- `tvl_raise_params`: a single eight-byte little-endian amount.
- The collection rounds for completions and governance: the same loop as `Collector.Federation.Collect` with another request.
- The auditor's `DatabaseCorrupt` text is SQLite's answer, taken as a parameter.
- Sums beyond u64: totals are unbounded integers; the snapshot is absent where the 64-bit sums would overflow.
- Unicode white space when a note, an address or a peer entry is trimmed: ASCII white space only.
- Splitting of peer entries at commas and at the first `@`: entries arrive split.
- WithdrawalDb.Db.Create: a refusal is one outcome; which constraint was met is only in the text of SQLite's error.
- Solvency.SlackExactly: assumes that a txid and an output number name one amount in whatever block the transaction is mined, as a txid hashes its transaction; `Solvency.CheckPassesExactly` inherits the assumption.
- Solvency.RunKeepsBooks: a mint happens once for an outpoint, for a recorded row; what a federation that signs for an unrecorded deposit would mint is not modelled.
- Indexer.Indexer.Tick: a node error is one outcome, `Unavailable`; which call failed and how is not kept.
- DepositRuns.RunKeeps: takes a tick of the mint pipeline as atomic against rollback, as the store itself does not check the state it moves from; the interleaved pipeline is `Orchestrator`.
- DepositRuns.OneActiveRowPerOutpoint: assumes a txid occurs in one block of a branch; minted rows may repeat after a deep reorganisation.
- Orchestrator.Pipeline.ProcessOne: whether enough signatures were collected is an arbitrary answer.
- Script.SpliceReplacesScriptsOnly: one direction for several inputs; with 0xfd or more of them, or a longer old script, the one-byte reads misplace the cursor and the outcome depends on the bytes it lands on. The hexadecimal layer is not modelled.
- Completion.AttestsExactly: the destination commitment is a function of the stored address text.
