# Confidential transfers: a verified model

A Dafny model of a TypeScript and Rust client for Token-2022 confidential transfers, with proofs of
what the client promises about balances, money held in proof accounts, signatures, transfer-hook
accounts and the auditor's report. `dafny verify dfyconfig.toml` checks the whole project.

## What is modelled

- **Encrypted balances** (`Group`, `ElGamal`, `Arithmetic`, `TransferProofs`). Points are elements of
  the prime-order group of section 4 of RFC 9496, as multiples of the base point; the second generator
  `H` is a parameter, so every result holds for every `H`. Ciphertext arithmetic is modelled on the
  64-byte and grouped encodings. A proof is its statement with the witness the prover is given.
- **The ledger** (`Ledger`, `LedgerRuns`). Deposit, apply, transfer and withdraw as operations that are
  planned on some state of the accounts and land on a later one. A run is a sequence of states in
  which every operation may have been planned on any earlier state.
- **Proof accounts** (`Cluster`, `ProofFlow`, `ProofFlowSafety`, `FlowClosing` for TypeScript;
  `RustProofs`, `RustSafety`, `RustClosing` for Rust; `ClosingRefinement` for both). The fate of every
  request and transaction is chosen by an adversary: refused, expired, landed, or landed with the
  confirmation lost. The client's methods run against it and are proved equal to functions, about
  which the lemmas speak. A run of sends is fair when simulation refuses only what the chain refuses,
  and what is sent in the end is confirmed and can be paid for.
- **Signing together** (`Signing`), with the order in which partial signers finish as a parameter. As
  in the source, a transaction counts as fully signed when no entry it has is empty.
- **Transfer hooks** (`TransferHook`): the meta-list and seed parsers and the resolution loop. A byte
  past the end of a config is `undefined`, as in the source, and `subarray` clamps.
- **The auditor's report** (`Auditor`, `Csv`, `ReportCsv`, `Decimal`): the paged scan, batching, order,
  amounts, and the CSV with a reader for section 2 of RFC 4180.

Several lemmas and methods `hide` function bodies they do not use, which keeps verification fast.

## Assumptions

- The token program debits and credits homomorphically, splits deposits into 16 and 32 bits, accepts a
  transfer or withdraw only when its proofs hold, are about these accounts, and the equality proof is
  about the ciphertext the current balance becomes. It takes the sealed balance of an apply as given.
- Transactions are atomic. A transaction whose block height was exceeded does not land, and one that
  failed does not land later. The Rust client tells an expiry by the text of the error (`is_expiry`), so
  for it the assumption is that such an error is given only for a transaction that will not land. A
  proof account can be closed once a proof is verified into it.
- The read of the accounts that exist takes any number of addresses. The RPC takes at most 100: a larger
  recovery is the case in which the read fails and everything is reported as left open.
- AES encryption is ideal: a sealed balance opens only with its key, to the 64 bits that were sealed.
- The transaction planner keeps the order of instructions and includes the action once; a partial
  signer answers every transaction with signatures of its own address only.
- In the CSV, different times print differently, and so do different signatures and addresses.
- The encoding of a point is canonical. The model uses the number itself in 32 bytes, little endian.

## What turned out not to hold as documented

- An apply of the pending balance can be overtaken by another operation on the account; the chain
  accepts it and the two copies of the balance then differ. `LateApply`: exactly when what was added
  to the account since differs from what was taken from it. While the account only receives, that is
  exactly when its credit counter has moved (`LateApplyByCounter`); a withdraw in between breaks the
  balance without moving the counter. `OvertakenByDeposit` and `OvertakenByWithdraw` are such runs;
  `RunKeepsExactly` says which runs keep all copies together.
- A retry discards the report of the failed attempt, so an account it left open goes unreported.
  The report is sure to be complete exactly when no retry was asked for (`CompleteWithoutRetries`);
  for any positive number of retries `LostReport` is a run that loses one, and `FinalReport` says which
  runs do.
- The Rust setup does not track an account whose creation landed but could not be confirmed.
  `CreateTracks` gives the exact condition, `CreationLost` a run. The TypeScript flow reads the accounts
  back and has no such case (`FlowAccounts`).
- The Rust client returns without closing or reporting its proof accounts when the instruction cannot be
  built after they are set up (`OperationReports`: exactly then). With the constant program id the
  builder should never refuse.
- Entries without a block time are listed for every window they are reached in, so reports over
  adjoining windows list them twice. `WindowSplits` gives the exact condition, `UnknownListedTwice` a
  history.

## Model

| member | source | states |
|---|---|---|
| `Arithmetic.PointsToCiphertext` | src/internal/confidentialTransferArithmetic.ts:31-39 | the filled buffer is the encoding of the ciphertext, and parses back to it |
| `Arithmetic.ExtractCiphertext` | src/internal/confidentialTransferArithmetic.ts:46-62 | fails exactly for a negative index or a missing handle; otherwise the buffer holds the commitment and that handle |
| `Arithmetic.ExtractGrouped` | src/internal/confidentialTransferArithmetic.ts:41-62 | of an encoded group, index i gives the shared commitment with handle i, and an error past the last handle |
| `Arithmetic.BytesCompute` | src/internal/confidentialTransferArithmetic.ts:64-112 | on encodings, the subtractions give the encodings of the group results |
| `Arithmetic.SubtractLoHiFails` | src/internal/confidentialTransferArithmetic.ts:17-99 | subtracting lo/hi halves fails exactly when an input encodes no ciphertext or the scale is out of range |
| `ElGamal.DecEncrypt` | src/internal/confidentialTransferProof.ts:282-297 | the holder of a valid key reads the amount encrypted to its public key, for every opening |
| `ElGamal.DecSubtractLoHi` | src/internal/confidentialTransferArithmetic.ts:64-99 | decrypting the difference is the difference of the decrypted amounts, modulo the group order |
| `TransferProofs.SplitRecombines` | src/internal/confidentialTransferProof.ts:155-158 | the halves recombine for every amount, and fit 16 and 32 bits exactly for the accepted ones |
| `TransferProofs.SplitAgrees` | src/internal/confidentialTransferArithmetic.ts:87-112 | subtracting both encrypted halves and subtracting the plain amount decrypt to the same balance |
| `TransferProofs.TransferStatements` | src/internal/confidentialTransferProof.ts:262-354 | a flow is built exactly for accepted, covered amounts, with the right error otherwise; validity and range (128 bits) always hold, equality exactly when both balance copies agree |
| `TransferProofs.WithdrawStatements` | src/internal/confidentialTransferProof.ts:435-466 | the same for a withdraw: range (64 bits) always, equality exactly when both copies agree |
| `TransferProofs.RecipientReads` | src/internal/confidentialTransferArithmetic.ts:46-62 | a recipient of a grouped ciphertext extracts and decrypts the amount |
| `TransferProofs.EveryPartyRecovers` | src/internal/confidentialTransferProof.ts:274-304 | source, destination and auditor each recover lo + (hi << 16) = amount from their own handles of the same two groups |
| `Ledger.DepositCredits` | src/deposit.ts:58-95 | a deposit that lands moves exactly its amount from the public to the pending balance, half by half |
| `Ledger.TransferDebits` | src/transfer.ts:87-156 | a planned transfer lands only on a balance equal to the one read, and then debits its amount from both copies |
| `Ledger.TransferCredits` | src/internal/confidentialTransferProof.ts:282-297 | the second handles credit the destination's pending halves by the halves of the amount |
| `Ledger.WithdrawMoves` | src/withdraw.ts:66-102 | a planned withdraw that lands keeps the copies together and the account's worth unchanged |
| `Ledger.ApplyPlans` | src/applyPendingBalance.ts:103-118 | an apply can be planned exactly when both halves decrypt, and seals available + lo + 2^16 hi without wrapping |
| `Ledger.ApplyMoves` | src/applyPendingBalance.ts:106-118 | landing moves the pending into the available balance; the copies agree exactly when the sealed value is that sum |
| `Ledger.StepKeeps` | src/applyPendingBalance.ts:67-122 | every operation, planned on any invariant state and landing on another, keeps the invariant (an apply: if the balances it read are still there) |
| `Ledger.RunKeeps` | src/transfer.ts:87-159 | in every state of every run, the ElGamal balance decrypts to the sealed one for every account, and all balances add up to the supply |
| `LedgerRuns.ConfiguredInv` | src/configureAccount.ts:39-60 | newly configured accounts satisfy the invariant with their public total as supply |
| `LedgerRuns.FreshDepositLands` | src/deposit.ts:58-82 | a deposit can be planned exactly for an accepted, covered amount and an account that is approved, accepts credits and has room for one; it is then accepted on the same state, and a refusal names its reason |
| `LedgerRuns.FreshTransferLands` | src/transfer.ts:87-156 | a transfer can be planned exactly for an accepted, covered amount and such a destination, and is accepted on the same state; a refusal names its reason |
| `LedgerRuns.ForeignKeysRefused` | src/transfer.ts:129-130 | with another key pair or AES key than the account's, nothing can be planned |
| `LedgerRuns.FreshWithdrawLands` | src/withdraw.ts:79-102 | the same for a withdraw |
| `LedgerRuns.StaleApply` | src/applyPendingBalance.ts:67-122 | a late apply keeps the copies together exactly when the account still holds what it held when the apply was planned |
| `LedgerRuns.StepMoves` | src/transfer.ts:87-159 | an operation that lands changes what each account holds by exactly the amount it adds to it and takes from it |
| `LedgerRuns.RunMoves` | src/transfer.ts:87-159 | over any stretch of any run, an account's holding changes by what was added less what was taken |
| `LedgerRuns.LateApply` | src/applyPendingBalance.ts:67-122 | over any stretch of any run, whatever the account did meanwhile: a late apply keeps the copies together exactly when as much was added to the account as was taken |
| `LedgerRuns.RunKeepsExactly` | src/applyPendingBalance.ts:67-122 | in a run from an invariant state, every state has both copies of every balance agreeing and the supply kept exactly when every apply that lands does so with as much added to its account as taken since its plan |
| `LedgerRuns.OnlyCredited` | src/internal/accounts.ts:52-82 | while an account only receives, its pending halves grow by exactly the halves of the credits it took |
| `LedgerRuns.LateApplyByCounter` | src/applyPendingBalance.ts:68-117 | its case for an account that only receives: exactly when the credit counter has not moved |
| `LedgerRuns.Overtaken` | src/applyPendingBalance.ts:67-122 | the run in which one operation overtakes an apply, from any invariant state: the copies agree afterwards exactly when it added what it took |
| `LedgerRuns.OvertakenByDeposit` | src/applyPendingBalance.ts:68-117 | a run in which a deposit overtakes an apply and the copies then differ |
| `LedgerRuns.OvertakenByWithdraw` | src/applyPendingBalance.ts:68-117 | a run in which a withdraw does so without moving the credit counter |
| `LedgerRuns.PendingDecrypts` | src/applyPendingBalance.ts:76-106 | with the default credit limit the low half always decrypts; the high half fails only above 2^48 - 1 in total, and always above 2^48 - 1 + 65536 * 65535 |
| `LedgerRuns.HalvesRecombine` | src/applyPendingBalance.ts:103-106 | for every list of credits lo + 2^16 hi is the exact sum, and lo is at most 65535 per credit |
| `LedgerRuns.LowHalfTight` | src/configureAccount.ts:39-40 | the low half stays decryptable for every list of n credits exactly when n is at most 65537 |
| `ProofFlow.Session.SimulateAndSend` | src/internal/send.ts:144-185 | refused, expired, failed or confirmed, with its effect on the chain |
| `ProofFlow.Session.CloseProofAccounts` | src/internal/send.ts:272-301 | read the existing accounts, close them in batches of eight, report closed and left open |
| `ProofFlow.Session.ExecuteProofFlow` | src/internal/send.ts:218-260 | send in order; on a failure close, then return if the action had landed and throw if not |
| `ProofFlow.Session.WithRetries` | src/internal/send.ts:305-314 | run again while the error is retryable; never more than retries + 1 attempts |
| `ProofFlow.RetryFrom` | src/internal/send.ts:305-314 | at most retries + 1 attempts |
| `ProofFlowSafety.OrderedPlan` | src/internal/confidentialTransferProof.ts:182-198 | setup, action, cleanup, cut into transactions in any way, closes all its accounts and acts once |
| `ProofFlowSafety.CloseAllEffect` | src/internal/send.ts:272-301 | whatever the sends do, nothing still open goes unreported, closed accounts are closed, and nothing is reported as both |
| `FlowClosing.ClosingRequests` | src/internal/send.ts:272-303 | one read, then one transaction for every eight accounts that exist, each reported as closed or left open; if the read fails, nothing is sent and all are reported left open |
| `FlowClosing.AllSent` | src/internal/send.ts:232-259 | when every send succeeds, the flow returns all its signatures and nothing left open |
| `FlowClosing.FailureTells` | src/internal/send.ts:233-256 | whichever send fails first: a return exactly past the action, otherwise an error that is retryable exactly when that send expired; with the signatures before it |
| `FlowClosing.FailureCloses` | src/internal/send.ts:240 | whichever send fails: if the requests after it are fair, the wholly closable batches of the flow's accounts are closed, and exactly the other existing ones are left open |
| `FlowClosing.FlowCloses` | src/internal/send.ts:233-301 | with the existing accounts verified, a flow leaves none of its accounts open whichever send fails, and the payer paid nothing but fees |
| `FlowClosing.RetriesClose` | src/internal/send.ts:305-314 | the same over all attempts |
| `ProofFlowSafety.FlowLands` | src/internal/send.ts:233-259 | the action lands at most once, as planned on a return, never on a retryable error; the signatures are those of a prefix that ends at or before the action exactly when it throws |
| `ProofFlowSafety.FlowAccounts` | src/internal/send.ts:233-259 | at every end, each proof account of the flow still open is reported, no other account is touched, no lamport is lost |
| `ProofFlowSafety.FlowRent` | src/internal/send.ts:233-270 | with nothing left open, the accounts are as before and the payer paid nothing but fees |
| `ProofFlowSafety.RetriesLandOnce` | src/internal/send.ts:305-314 | over all attempts the action lands at most once, exactly once on a return, not at all on a retryable error |
| `ProofFlowSafety.RetriesAccount` | src/internal/send.ts:305-314 | over all attempts no lamport is lost and what is left open was reported by some attempt |
| `ProofFlowSafety.FinalReport` | src/internal/send.ts:305-314 | the final report is complete exactly when every attempt that was run again closed what it created |
| `ProofFlowSafety.CompleteWithoutRetries` | src/internal/send.ts:305-314 | the final report is complete for all plans and all fates exactly when `retries` is absent or not positive |
| `ProofFlowSafety.LostReport` | src/internal/send.ts:305-314 | for every positive number of retries, a run in which an open account is in no report the caller sees |
| `ProofFlowSafety.RecoveredExactly` | src/recoverProofAccounts.ts:50-75 | the reported lamports never exceed what came back, and equal it unless a close reported as failed took effect |
| `RustProofs.Sender.SendTransaction` | rust/src/send.rs:42-61 | resends after an expiry, up to the limit |
| `RustProofs.Sender.CloseProofAccounts` | rust/src/proofs.rs:113-159 | batches of eight, one by one when a batch of more than one fails; with the signatures of the closes that landed |
| `RustProofs.ProofSetup.Create` | rust/src/proofs.rs:47-98 | the account is recorded as verified, as unverified, or not at all, as the sends went |
| `RustProofs.ProofSetup.Fail` | rust/src/proofs.rs:100-110 | closes the verified accounts, reports the unverified one as left open, and hands over all signatures |
| `RustProofs.Client.Run` | rust/src/client.rs:492-530 | setup, building the action, its hook's accounts, the action with or without the closes, abandoning on failure; and the signatures |
| `RustSafety.SendAgainEffect` | rust/src/send.rs:44-61 | a transaction is sent again exactly while it expires, at most maxRetries + 1 times in all; it takes effect at most once, and after a failure exactly when the last send did so unseen |
| `RustSafety.CloseAccountsAnswers` | rust/src/proofs.rs:113-159 | for every fate of the sends, closed and left open partition the input, in at most n + ceil(n / 8) sends |
| `RustSafety.CreateTracks` | rust/src/proofs.rs:47-98 | an account is tracked as verified, with the rent asked for, or as unverified, or is open untracked exactly when the send creating it took effect unseen |
| `RustSafety.SetupKeepsTrack` | rust/src/proofs.rs:28-98 | the tracked accounts are a prefix of those requested, at most the last unverified; nothing later exists, and at most one untracked account, after a lost confirmation |
| `RustSafety.CreationLost` | rust/src/proofs.rs:26-98 | a run in which a created account is not tracked |
| `RustSafety.OperationReports` | rust/src/client.rs:819-991 | a failed transfer or withdraw reports every tracked account once; what is closed is closed, what is open is reported, but for a lost creation; nothing is reported, and everything left open, exactly when the instruction cannot be built |
| `RustSafety.CloseAccountsSigned` | rust/src/proofs.rs:113-159 | the closing's signatures are of confirmed sends, each once and in order, one for every one to eight accounts closed |
| `RustSafety.OperationSigns` | rust/src/client.rs:942-991 | at every end the signatures are of confirmed sends of this operation, each once and in order: one for each setup transaction that landed, the action's, and one for every one to eight accounts closed |
| `RustSafety.OperationLands` | rust/src/client.rs:942-974 | the action lands at most once, exactly once on success; if the closes fit, never with a proof account of it open |
| `RustClosing.OperationCloses` | rust/src/client.rs:942-991 | however a transfer or withdraw ends (unless its instruction cannot be built), if its closing sends are fair no verified proof account is open, whether or not the closes fit; the report is exact, and on success there is a signature for every eight accounts closed |
| `RustClosing.OperationSucceeds` | rust/src/client.rs:492-530 | with requests answered, transactions confirmed and rents and fees affordable, the operation succeeds and its action takes effect |
| `ClosingRefinement.RustClosesClosable` | rust/src/proofs.rs:113-159 | when simulation refuses only what the chain refuses, and what is sent in the end arrives and can be paid for, Rust closes exactly the closable accounts, in order |
| `ClosingRefinement.BatchesClose` | src/internal/send.ts:286-300 | in the same conditions, TypeScript closes exactly the batches of eight that are wholly closable |
| `ClosingRefinement.Refines` | src/internal/send.ts:273-301 | what TypeScript closes Rust closes too; they close the same exactly when no batch mixes closable with unclosable accounts |
| `ClosingRefinement.MixedTypeScript` | src/internal/send.ts:281-300 | a mixed batch refused in simulation, of which TypeScript closes nothing |
| `ClosingRefinement.MixedRust` | rust/src/proofs.rs:113-159 | the same batch, of which Rust closes the closable account |
| `Signing.SignTogether` | src/internal/send.ts:81-131 | for every completion order the same transactions with their lifetimes, or an error exactly if one has an entry not signed; and every candidate is asked exactly once, for the transactions naming it |
| `Signing.AsksEachOnce` | src/internal/send.ts:94-121 | of all requests made, exactly one goes to each candidate, for exactly the transactions naming it, at least one; and none to anybody else |
| `Signing.ModifiedInTurn` | src/internal/send.ts:106-111 | each modifying signer is sent its transactions as those before it left them, and the k-th of them becomes the k-th it answers; the others stay |
| `Signing.SignaturesPlaced` | src/internal/send.ts:113-122 | the k-th dictionary a partial signer answers is in the k-th transaction it was sent |
| `Signing.OthersKept` | src/internal/send.ts:113-122 | an address nobody answered for, and everything but signatures, is as the modifying signers left it |
| `Signing.CandidatesAre` | src/internal/send.ts:91-96 | of the signers with one address the first one named counts, and is a candidate exactly when it can sign |
| `Signing.AnyOrder` | src/internal/send.ts:113-124 | merging in any order of completion gives the same transactions |
| `Signing.OrderIrrelevant` | src/internal/send.ts:113-124 | the merged signatures are the same for all orders exactly when no two answers differ on an address |
| `Signing.NothingLost` | src/internal/send.ts:113-124 | every signature a partial signer returned is in the result, on the bytes left by the modifying signers |
| `Signing.EachAskedOnce` | src/internal/send.ts:94-101 | every usable signer is chosen exactly once, as modifying or as partial, and addresses are distinct |
| `Signing.SelectionRule` | src/internal/send.ts:96-101 | signers that can only modify all go first; only without them does one that can do both modify, the first |
| `Signing.Needs` | src/internal/send.ts:103-104 | exactly the indexes of the transactions that name the address, in order |
| `TransferHook.ParseMetaList` | src/internal/transferHook.ts:90-106 | the entries the layout gives |
| `TransferHook.ListRoundTrip` | src/internal/transferHook.ts:35-106 | parsing undoes the layout; of data cut anywhere it gives the entries that are whole |
| `TransferHook.MetasAre` | src/internal/transferHook.ts:90-106 | of any data: as many entries as are announced and whole, each with the fields at its place |
| `TransferHook.UnpackSeeds` | src/internal/transferHook.ts:108-147 | the seeds of a config, or the first error, always terminating |
| `TransferHook.PackedThenRest` | src/internal/transferHook.ts:108-147 | of packed seeds followed by any bytes, unpacking gives the seeds' values in order, or the first error, and goes on with those bytes |
| `TransferHook.SeedsRoundTrip` | src/internal/transferHook.ts:108-147 | unpacking packed seeds followed by zeros gives exactly their values in order |
| `TransferHook.ResolveTransferHookAccounts` | src/internal/transferHook.ts:189-222 | the accounts to append, or the first error |
| `TransferHook.EachFromEarlier` | src/internal/transferHook.ts:199-215 | account k is its entry resolved against the accounts before it; later entries change nothing |
| `TransferHook.ForwardReferenceFails` | src/internal/transferHook.ts:149-170 | a reference to the entry itself or a later one, by discriminator or by any seed the config holds, whatever follows it, or an unknown discriminator, is an error |
| `TransferHook.HookOutput` | src/internal/transferHook.ts:192-221 | one account for each entry in order, with its role; then the hook program and the list account, read-only; nothing without hook or list |
| `TransferHook.HookDerives` | src/internal/transferHook.ts:149-170 | account k is derived from its seeds' values for the accounts before it, under the hook program or under the earlier account its discriminator names |
| `TransferHook.DerivedUnder` | src/internal/transferHook.ts:149-170 | the result, or the error, of every entry that is not a literal and has packed seeds |
| `TransferHook.HookFails` | src/internal/transferHook.ts:189-221 | resolving fails exactly when some entry does after those before it resolved, and with its error |
| `TransferHook.FirstFive` | src/internal/transferHook.ts:200-206 | the seeds for indexes 0 to 4 are source, mint, destination, owner and list |
| `TransferHook.HookAmount` | src/internal/transferHook.ts:208-211 | a hook's seeds read the Execute discriminator and the amount, 2^64 - 1 by default |
| `Auditor.SignaturesOf` | src/auditorReport.ts:245-265 | the paged scan equals the one-pass scan for histories of every length |
| `Auditor.ScanSelects` | src/auditorReport.ts:245-265 | with known times it returns the first maxTransactions entries that did not fail and lie in the window |
| `Auditor.WantedMeans` | src/auditorReport.ts:247-257 | an entry of known time is wanted when it did not fail, its second has not ended by `since` and has ended by `until` |
| `Auditor.WindowSplits` | src/auditorReport.ts:247-257 | the window [a, b) is [t, b) and then [a, t), exactly when no entry of unknown time is reached by the newer part |
| `Auditor.UnknownListedTwice` | src/auditorReport.ts:253-257 | a history whose entry both parts of every split window list |
| `Auditor.ReportSplits` | src/auditorReport.ts:182-183 | so reports over adjoining windows concatenate, oldest first |
| `Auditor.KnownReportSplits` | src/auditorReport.ts:245-265 | with known times, newest first, the reports over [a, t) and [t, b) always concatenate to the one over [a, b) |
| `Auditor.ListConfidentialActivity` | src/auditorReport.ts:131-184 | for every batch size the report is the listing of each signature with its slot and time, oldest first |
| `Auditor.ReportListed` | src/auditorReport.ts:145-183 | the report holds, oldest first, the entries of each transaction: of each top-level instruction, then of those it invoked, with the transaction's slot and time; none of a missing or failed one |
| `Auditor.Movements` | src/auditorReport.ts:164-242 | which instructions have an entry, and its kind, parties, amount and note |
| `Auditor.LastForIs` | src/auditorReport.ts:154-162 | of several groups or owners for one index the last counts |
| `Auditor.TopBeforeInner` | src/auditorReport.ts:158-163 | a top-level instruction is directly followed by those it invoked, and those by the rest |
| `Auditor.AuditorReads` | src/auditorReport.ts:222-227 | the amount of a transfer built for this auditor is recovered |
| `Auditor.AuditedWhen` | src/auditor.ts:105-116 | an amount is read exactly when both halves parse and decrypt, as lo + 2^16 hi; otherwise the matching error |
| `Auditor.TransferListed` | src/auditorReport.ts:217-231 | such a transfer is listed with its amount, from the first account to the third, as decrypted |
| `Auditor.DecryptTransferAmountAsAuditor` | src/auditor.ts:75-124 | the amount of the first transfer instruction, or the matching error |
| `Auditor.BuiltDecrypts` | src/auditor.ts:105-116 | a transfer built for this auditor is decrypted to its amount |
| `Csv.FileRoundTrip` | src/auditorReport.ts:276-307 | reading the printed file by RFC 4180 gives the header and exactly the records, whatever their fields contain |
| `ReportCsv.CsvRoundTrip` | src/auditorReport.ts:276-307 | the same for the entries of a report, and the amounts read back from the records |
| `ReportCsv.Columns` | src/auditorReport.ts:276-295 | every text stands under its own column name |
| `ReportCsv.RecordTells` | src/auditorReport.ts:280-295 | no two entries, with transaction, slot, time, parties and amount, print the same record |
| `ReportCsv.FileTells` | src/auditorReport.ts:131-307 | reading the printed report gives the records of exactly one list of entries, the one that was listed |
| `Decimal.PrintedShape` | examples/vite/src/main.ts:207-211 | the printed amount has exactly the mint's decimals and the amount's digits |
| `Decimal.AcceptedValue` | examples/vite/src/main.ts:199-205 | an accepted text is worth its digits before and after the dot |
| `Decimal.AcceptedTexts` | examples/vite/src/main.ts:199-205 | exactly the positive amounts with no more than the mint's decimals are accepted, with their value; the refusals tell which rule is missed |
| `Decimal.AmountRoundTrip` | examples/vite/src/main.ts:199-211 | a positive amount printed and read again is the same amount |

## Left out

- Proof generation, key derivation, AES and curve code, and the wire encoding of transactions.
- RPC transport, confirmation, logs and message texts: only the outcome of each request matters.
- `withPriorityFee`, `fits` and `sign` of the Rust sender (which signers a message needs): size and
  selection checks without effect on the results above. That the closes fit is a parameter.
- Rust's success path when the closes do not fit discards the outcome of closing; no report is claimed.
- `configureAccount`, the program-owned account helpers, derivation of addresses, the command line, the
  web examples except the two amount functions.
- Instruction data is decoded by a library: the report works on decoded payloads, addresses are compared
  as values, and times in the CSV are the text they print as.
- A `maxTransactions`, `concurrency` or handle index that is not a whole number.
- `Signing.SignTogether`: a signer that rejects, or answers with too few results, is not modelled; every
  wallet answers each request with one result for each transaction.
- `Cluster.SendOnce`: a transaction that failed or expired does not land later, because the client
  assumes so; after that assumption fails, nothing is claimed.
