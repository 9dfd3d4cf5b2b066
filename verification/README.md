# Credence contracts: a verified model

A Dafny model of the storage-backed state machines of the Credence Soroban contracts, with proofs
of what every run of them keeps. Each entry point is one atomic step; a call that fails leaves no
trace. Ledger time is constant within a call and never decreases between calls.

Each storage contract comes in four files. `X.dfy` states every operation as a function on a
value state, error by error and in the source's order. `XTheorems.dfy` defines runs of calls and
proves, for all runs or all reachable states, the properties the contract promises.
`XEffects.dfy` says of every call, independently of those functions, whose signature it needs,
exactly when it succeeds, what it stores and what stays as it was, and leads what a run has stored
back to the calls that were signed for it (for the early exit and the baseline file the theorems do).
`XContract.dfy` is the contract in its own form: a class whose methods change its fields and run
its loops, each method proved to have exactly the specified effect. Its `Valid()` says that the
fields are the end of some run, so every theorem applies to every object (the early-exit store
keeps a plain invariant instead). States also carry history (logs of payments, nonces, grants,
approvals, ballots), ghost in the classes, that no operation reads; theorems compare storage with
it.

| files | contract |
|---|---|
| `Claims*` | the pull-payment claims ledger: add, pay with filter and batch limit, full cleanup, bounded sweep, two kinds of pages |
| `Multisig*` | dynamic signer set, proposals, revalidated signatures, execute-once hashes, permissionless pruning |
| `Scanner*` | the liquidation registry scanned page by page while it changes |
| `Attestation*` | attestation table, per-subject index and counter, drift guard |
| `Delegation*` | one nonce stream behind seven entry points, payloads, time-bounded authority |
| `Pausing*` | pause signers, threshold, proposals with derived ids |
| `FixedPoint` | `mul_div`, basis points, ceiling division, with machine widths |
| `EarlyExit*` | the two-stage floored penalty and `withdraw_early` |
| `Json`, `JsonTheorems`, `JsonHarness` | the cost-baseline printer and its recursive-descent reader |
| `Arbitration*` | disputes, weighted votes, quorum, tally with ties |
| `Admin*` | records, admin list and role lists |
| `Registry*` | the two-way identity map and its list |
| `Host`, `Lists`, `Arithmetic` | machine integers, call results; vectors of addresses and ids; floors of products |

## Conventions

- Authorization is the set of addresses that signed the call. Proposal ids are a function of action
  and epoch, free of collisions only where a theorem says so. Verifier calls, interface checks and code
  hashes are booleans the caller supplies. Transfers are history.
- Unsigned and signed widths are explicit. The release profile has no overflow checks, so a plain
  `+` wraps in the model. A checked operation that can fail is a branch; one that cannot is an
  assertion beside the code it would guard.
- The host rejects vectors and maps that outgrow a ledger entry; `HOST_VEC_LIMIT` stands for that
  limit and only keeps lengths inside 32 bits.

## Where code and documentation differ

The model follows the code.

- Claims: the expiry is a plain addition, which wraps in the last seconds of the 64-bit clock;
  the order of the list needs a clock below that (`OrderNeedsClockHeadroom`), so runs of the
  ledger keep their time at or below `LATEST_CLOCK`. `process_claims` drops expired claims without
  reducing ClaimableAmount; the amount stays there until the list is next empty. Offset pages miss claims
  exactly when read ones were settled in between while unread ones still pend (`OffsetGapIff`);
  cursor pages do not (`InterleavedWalkIsComplete`).
  `MAX_QUERY_LIMIT` is not defined in the parameters file; 200 is the value its documentation
  gives.
- Multisig: `initialize` accepts duplicate signers and has no second-call guard. That each
  execution has threshold many distinct signers holds on every run from a first initialization
  if and only if the list names no signer twice (`ApprovalNeedsDistinctSigners`); the other
  theorems are about runs from such a list. Execute-once holds through any number of further
  initializations (`ExecutedOnceEver`); approval by distinct signers does not, since ids start
  again while flags stay (`FlagsOutliveInitialization`). `execute_proposal` marks an expired proposal and then fails, so the mark is
  undone.
- Scanner: an empty registry accepts any cursor. `advance_keeper_cursor` is documented to accept
  only the cursor the last scan returned. The scan has stored that cursor already, so the call
  accepts exactly 0 and the slots beyond it: the documented advance succeeds only when the scan
  returned 0 (`AdvanceAfterScan`), and a keeper can skip active holders (`AdvanceSkips`,
  `KeeperCanSkip`). `PassIsComplete` is about keepers that go on at the cursor each scan returned,
  which the scan itself does not enforce. The ratio reads as 0 when slashed * 10000 leaves i128.
- Attestations: `add_attestation` checks for a duplicate key but writes none; only batches do. A
  triple is refused exactly while the addition of a batch stands, that is until any attestation of
  the triple is revoked (`DuplicateRefusedIff`), so revoking one of two attestations frees the key
  of the other (`RevocationFreesOtherKey`).
- Delegation: an unknown signature scheme reads as Ed25519 rather than failing. `cleanup_expired`
  also removes expired records that were revoked. A signed payload names neither the kind of
  delegation nor the expiry; only the owner's authorization of the call itself fixes them
  (`PayloadLeavesKindAndExpiryOpen`).
- Admin: `remove_admin` protects the last super admins, but nobody outranks a super admin, so the
  rank check refuses first and that protection never fires. `update_admin_role` never compares the
  caller with the role its target has, so an admin can demote the only super admin
  (`AdminDemotesRoot`), and no later call brings one back (`NoSuperForever`). Neither deactivation
  nor removal has a MinAdmins guard for other admins, and initialization starts with one admin
  whatever MinAdmins is (`DeactivationCountsDown`, `RemovalCountsDown`, `BelowMinAdmins`). The
  caller's rank is read without its status, so a deactivated or suspended admin keeps some of its
  powers (`IneffectiveCaller`) and a deactivated one restores itself (`DeactivationIsUndone`).
- Pause governance: at threshold 0, which means no signer, a live proposal needs no approver
  (`UnapprovedIff`, `RemovalExecutesUnapproved`). Approvals of an id are never counted twice, so
  an id proposed again in its epoch needs approvers who have not approved it (`CarriedIff`). What is
  executed is what was proposed if and only if no pause id is also an unpause id
  (`ExecutedAsProposed`).
- Fixed point: `ceil_div_checked_i128` is the ceiling on its documented domain; elsewhere exactly
  under the condition in `CeilDivIsCeilingIff`.
- Early exit: a product that overflows makes the penalty zero, so the documented accuracy,
  monotonicity and splitting bounds hold if and only if none does (`PenaltyNearExact`,
  `MonotoneIffNoOverflow`, `SplitsFairlyIffNoOverflow`).
- Baseline file: numbers are read through a double, so integers beyond 2^53 survive only if they
  are doubles or the largest i64 (`BaselineRoundTripIff`).
- Registry: pages are capped at 200, so a reader that advances by a larger limit of its own skips
  identities (`StrideIsListIff`). Paging is documented as free of gaps and duplicates; while the
  list changes it is, if what is removed is yet unread (`InterleavedWalkIsList`). Exactly when
  a gap hides an identity is `GapIff` and `RemovalHidesIff`, exactly when one is read twice
  `RereadIff` and `RegisteringAgainRepeatsIff`; `PagingMissesAndRepeats` does both.

## Model

| member | source | states |
|---|---|---|
| ClaimsTheorems.ClaimValueIsConserved | contracts/credence_bond/src/claims.rs:138-210 | on every run, per user: amounts added = paid + dropped + pending; ClaimableAmount = pending sum + what payments dropped as expired since the list was last empty, as the log has it; per id: settled at most once, pending exactly when not settled, and equal to its by-id record |
| ClaimsTheorems.StepKeepsInv | contracts/credence_bond/src/claims.rs:383-480 | every ledger operation keeps the full invariant (accounts, balances, the fate of every id) |
| ClaimsTheorems.PaySplitIsSplit | contracts/credence_bond/src/claims.rs:383-440 | a payment splits the list: sums, ids and order are preserved across paid, kept and skipped |
| ClaimsTheorems.PaysOldestEligible | contracts/credence_bond/src/claims.rs:383-440 | process_claims pays exactly the oldest eligible claims, up to the batch limit |
| ClaimsTheorems.PassNeverOverflows | contracts/credence_bond/src/claims.rs:526-572 | no checked sum or subtraction of a pass can fail: partial sums stay within ClaimableAmount |
| ClaimsTheorems.ExpiredArePrefix | contracts/credence_bond/src/claims.rs:154-185 | on an ordered list with fixed lifetimes the expired claims are a prefix |
| ClaimsTheorems.SweepDropsPrefix | contracts/credence_bond/src/claims.rs:635-692 | a bounded sweep drops exactly the first min(limit, expired) claims |
| ClaimsTheorems.ExpiryEffect | contracts/credence_bond/src/claims.rs:615-699 | in every reachable ledger a sweep removes min(limit, expired) oldest claims and a cleanup all expired ones, with the exact resulting ledger |
| ClaimsTheorems.CleanupAbsorbsSweep | contracts/credence_bond/src/claims.rs:514-579 | sweeping first does not change where a cleanup ends |
| ClaimsTheorems.SweepsDropOldest | contracts/credence_bond/src/claims.rs:615-699 | sweeps with any limits, one after another, remove exactly the oldest min(total limit, expired) claims |
| ClaimsTheorems.SweepsReachCleanup | contracts/credence_bond/src/claims.rs:615-699 | sweeps whose limits add up to the expired claims end in the very ledger one cleanup gives |
| ClaimsTheorems.CapacityGrows | contracts/credence_bond/src/claims.rs:622-634 | each sweep has a limit of at least one, so repeating it terminates in that ledger |
| ClaimsTheorems.CursorWalkIsPendingList | contracts/credence_bond/src/claims.rs:275-314 | for every limit >= 1 the cursor walk from 0 terminates and concatenates to the pending list, full last page included |
| ClaimsTheorems.InterleavedWalkIsComplete | contracts/credence_bond/src/claims.rs:275-314 | with any calls between the pages and any page sizes the cursor walk returns ids in increasing order, and when done every claim that was pending throughout |
| ClaimsTheorems.PageOfWalk | contracts/credence_bond/src/claims.rs:275-314 | one page of such a walk: increasing behind the cursor, complete up to the next |
| ClaimsTheorems.AfterPage | contracts/credence_bond/src/claims.rs:290-313 | a page strictly shortens what lies behind the cursor |
| ClaimsTheorems.OffsetWalkIsRest | contracts/credence_bond/src/claims.rs:739-769 | the documented offset loop reproduces the list |
| ClaimsTheorems.OffsetGapIff | contracts/credence_bond/src/claims.rs:739-769 | after any calls between two offset pages the reader misses no claim that still pends, if and only if all it read still pend or no unread one does |
| ClaimsTheorems.OrderNeedsClockHeadroom | contracts/credence_bond/src/claims.rs:138-210 | two claims added one after the other are in order if and only if the second comes at LATEST_CLOCK or before |
| ClaimsEffects.AddSucceedsIff | contracts/credence_bond/src/claims.rs:138-210 | a claim can be added exactly if its amount is positive and the id, the list and the running total have room |
| ClaimsEffects.AddTakesEffect | contracts/credence_bond/src/claims.rs:138-210 | the last claim of the list has the next id and the amount, kind, source and text of the call and lapses thirty days after now; list, record by id, ClaimableAmount, pending sum and booked total grow by just that amount; no other user is touched |
| ClaimsEffects.ProcessSucceedsIff | contracts/credence_bond/src/claims.rs:345-504 | a payment succeeds exactly if the user signed, some pending claim is payable, and the token transfer succeeds |
| ClaimsEffects.PassIsFated | contracts/credence_bond/src/claims.rs:383-440 | claim by claim: paid if eligible and within the batch limit, dropped if lapsed, kept otherwise |
| ClaimsEffects.KindsAreListed | contracts/credence_bond/src/claims.rs:442-470 | the receipt names the kinds paid, each once |
| ClaimsEffects.ProcessTakesEffect | contracts/credence_bond/src/claims.rs:345-504 | pays the claims it should and nothing else, marks exactly their records, takes their sum off ClaimableAmount; the receipt names number, sum and kinds of what was paid |
| ClaimsEffects.ExpiryTakesEffect | contracts/credence_bond/src/claims.rs:514-699 | a sweep drops the lapsed claims at the front, at most as many as it may look at, a cleanup all that lapsed; both say how many |
| ClaimsEffects.PageIs | contracts/credence_bond/src/claims.rs:275-314 | a cursor page holds the next claims behind the cursor, at most fifty, and names its last id exactly if it is full |
| ClaimsEffects.OffsetPageIs | contracts/credence_bond/src/claims.rs:739-769 | an offset page is the slice asked for, cut to 200 and to the list; zero asks for 200 |
| ClaimsEffects.RecordsGoBackToCalls | contracts/credence_bond/src/claims.rs:138-504 | on every run each record goes back to the call that added it, with user, amount and all else that call gave, and is marked paid only if a payment of the run was signed by that user |
| ClaimsContract.PayPass | contracts/credence_bond/src/claims.rs:383-480 | the pay loop computes the pay split and its total |
| ClaimsContract.CleanupPass | contracts/credence_bond/src/claims.rs:526-572 | the cleanup loop computes the cleanup split and its total |
| ClaimsContract.SweepPass | contracts/credence_bond/src/claims.rs:635-692 | the sweep loop computes the bounded split and its total |
| ClaimsContract.ReadPage | contracts/credence_bond/src/claims.rs:275-314 | the cursor page loop returns the specified page and next cursor |
| ClaimsContract.ReadOffsetPage | contracts/credence_bond/src/claims.rs:739-769 | the offset page loop returns the specified page |
| ClaimsContract.ClaimsStore.AddPendingClaim | contracts/credence_bond/src/claims.rs:138-210 | new state and result of add_pending_claim, on a store that stays reachable |
| ClaimsContract.ClaimsStore.ProcessClaims | contracts/credence_bond/src/claims.rs:345-504 | new state and result of process_claims; its checked arithmetic never fails |
| ClaimsContract.ClaimsStore.CleanupExpiredClaims | contracts/credence_bond/src/claims.rs:514-579 | new state and count of cleanup_expired_claims |
| ClaimsContract.ClaimsStore.ExpireClaimsBounded | contracts/credence_bond/src/claims.rs:615-699 | new state and count of expire_claims_bounded |
| ClaimsContract.ClaimsStore.GetPendingClaimsPage | contracts/credence_bond/src/claims.rs:275-314 | the page of the stored list |
| ClaimsContract.ClaimsStore.GetPendingClaimsPaginated | contracts/credence_bond/src/claims.rs:739-769 | the offset page of the stored list |
| MultisigTheorems.MultisigIsSafe | contracts/credence_multisig/src/multisig.rs:176-304 | on every run: list, flags and count agree, 1 <= threshold <= count; ExecutedOp is exactly the hashes of Executed proposals, no two sharing one; cached counts equal flags while pending; every execution on record had its threshold of distinct approvers |
| MultisigTheorems.ExecutionIsApproved | contracts/credence_multisig/src/multisig.rs:426-492 | a successful execution has at least threshold distinct current signers and a fresh operation hash |
| MultisigTheorems.ExecutionIsLive | contracts/credence_multisig/src/multisig.rs:426-492 | execution succeeds if and only if unpaused, pending, not over, enough current signers, hash unused |
| MultisigTheorems.ActiveAreDistinct | contracts/credence_multisig/src/multisig.rs:692-710 | the counting loop over the signer list counts distinct signers |
| MultisigTheorems.StepKeepsInv | contracts/credence_multisig/src/multisig.rs:372-492 | every entry point keeps the invariant |
| MultisigTheorems.PruningIsInvisible | contracts/credence_multisig/src/multisig.rs:526-585 | after a prune, along any later run, every call succeeds or fails as without it, except exactly the rejection of a pruned proposal that could still be rejected; executions are the same |
| MultisigTheorems.PrunedStep | contracts/credence_multisig/src/multisig.rs:526-585 | a pruned and an unpruned contract simulate each other step by step, with that one exception |
| MultisigTheorems.PrunedCouldNeverRun | contracts/credence_multisig/src/multisig.rs:385-391 | a pruned proposal could not be signed or executed then or at any later time, and was not executed |
| MultisigTheorems.PrunedIdsNext | contracts/credence_multisig/src/multisig.rs:541-576 | the prune loop removes exactly the prunable ids of its bounded range, one id at a time |
| MultisigTheorems.ApprovalNeedsDistinctSigners | contracts/credence_multisig/src/multisig.rs:132-173 | for every list initialize accepts: on every run each execution has threshold many distinct current signers, if and only if the list names no signer twice |
| MultisigTheorems.DuplicatesExecuteShort | contracts/credence_multisig/src/multisig.rs:132-173 | from any list with a duplicate and whatever threshold, a run that ends where fewer distinct signers than the threshold can execute |
| MultisigTheorems.ExecutedOnceEver | contracts/credence_multisig/src/multisig.rs:426-492 | from any state, through any calls and any further initializations, an operation hash is executed exactly once if it becomes used and never otherwise |
| MultisigTheorems.FlagsOutliveInitialization | contracts/credence_multisig/src/multisig.rs:132-173 | after another initialization the first proposal has id 0 and counts the flags the listed signers ever set on a proposal 0 |
| MultisigEffects.InitializeTakesEffect | contracts/credence_multisig/src/multisig.rs:132-173 | exactly when it succeeds; list, flags, count and threshold afterwards; proposals, signatures and used hashes stay |
| MultisigEffects.AddSignerTakesEffect | contracts/credence_multisig/src/multisig.rs:176-219 | the admin adds a signer at the end of the list, unless it is one; nothing else changes |
| MultisigEffects.RemoveSignerTakesEffect | contracts/credence_multisig/src/multisig.rs:222-282 | the admin removes a signer unless it is the last; the others keep their order, the threshold falls only if it could not be met any more |
| MultisigEffects.SetThresholdTakesEffect | contracts/credence_multisig/src/multisig.rs:285-304 | the admin sets a threshold the signers can meet; nothing else changes |
| MultisigEffects.SubmitTakesEffect | contracts/credence_multisig/src/multisig.rs:307-369 | exactly when a signer may submit; the proposal is stored as given, pending and unsigned, under a new id |
| MultisigEffects.SignTakesEffect | contracts/credence_multisig/src/multisig.rs:372-423 | succeeds exactly for a current signer in auth, unpaused, on an open proposal it has not signed; sets just that flag and raises just that count |
| MultisigEffects.ExecuteTakesEffect | contracts/credence_multisig/src/multisig.rs:426-492 | exactly when it succeeds; marks its proposal, uses up its hash, and that is all |
| MultisigEffects.RejectTakesEffect | contracts/credence_multisig/src/multisig.rs:495-517 | succeeds exactly for the unpaused, signing admin on a pending id, expired or not; the proposal is Rejected and every other proposal, signature and hash stays |
| MultisigEffects.ClosedForGood | contracts/credence_multisig/src/multisig.rs:385-440 | what is not pending is never signed or executed again, whatever is called |
| MultisigEffects.RejectedForGood | contracts/credence_multisig/src/multisig.rs:495-517 | after a rejection no later run lets the proposal be signed or executed |
| MultisigEffects.PruneTakesEffect | contracts/credence_multisig/src/multisig.rs:526-585 | removes exactly the stale proposals of its range with their signatures, and says how many; nothing else changes |
| MultisigEffects.FlagsGoBackToSigners | contracts/credence_multisig/src/multisig.rs:372-423 | on every run a signature flag goes back to a call by which that signer signed that proposal, a signer to the initial list or an admin-signed call |
| MultisigEffects.ProposalsGoBackToSubmissions | contracts/credence_multisig/src/multisig.rs:307-369 | on every run each proposal is, but for its status and count, what a signer of that moment submitted and signed for |
| MultisigContract.CountActiveSignatures | contracts/credence_multisig/src/multisig.rs:692-710 | the count loop |
| MultisigContract.ClearSignatures | contracts/credence_multisig/src/multisig.rs:541-576 | the signature removal loop |
| MultisigContract.PruneScan | contracts/credence_multisig/src/multisig.rs:526-585 | the prune loop returns the pruned tables and exactly the number removed |
| MultisigContract.Deploy | contracts/credence_multisig/src/multisig.rs:132-173 | initialize on any signer list: the store or the error; distinct signers make it a valid one |
| MultisigContract.MultisigStore.InitializeAgain | contracts/credence_multisig/src/multisig.rs:132-173 | effect and errors of initialize on a contract that is already set up |
| MultisigContract.MultisigStore.AddSigner | contracts/credence_multisig/src/multisig.rs:176-219 | exactly the specified effect and result; the store stays the end of some run |
| MultisigContract.MultisigStore.RemoveSigner | contracts/credence_multisig/src/multisig.rs:222-282 | exactly the specified effect and result; the store stays the end of some run |
| MultisigContract.MultisigStore.SetThreshold | contracts/credence_multisig/src/multisig.rs:285-304 | exactly the specified effect and result; the store stays the end of some run |
| MultisigContract.MultisigStore.SubmitProposal | contracts/credence_multisig/src/multisig.rs:307-369 | exactly the specified effect and id, with target, function, arguments and metadata stored; the store stays the end of some run |
| MultisigContract.MultisigStore.SignProposal | contracts/credence_multisig/src/multisig.rs:372-423 | exactly the specified effect and result; the store stays the end of some run |
| MultisigContract.MultisigStore.ExecuteProposal | contracts/credence_multisig/src/multisig.rs:426-492 | new state and result, with revalidated signatures |
| MultisigContract.MultisigStore.RejectProposal | contracts/credence_multisig/src/multisig.rs:495-517 | exactly the specified effect and result; the store stays the end of some run |
| MultisigContract.MultisigStore.PruneExpiredProposals | contracts/credence_multisig/src/multisig.rs:526-585 | new state and number removed |
| ScannerTheorems.PassIsComplete | contracts/credence_bond/src/liquidation_scanner.rs:276-380 | a pass from cursor 0 with arbitrary calls between its pages is never refused, inspects every slot once in order, reports exactly the holders that qualify at their inspection, covers all holders registered at the start, and ends |
| ScannerTheorems.PassFrom | contracts/credence_bond/src/liquidation_scanner.rs:276-380 | the same from any cursor of the pass |
| ScannerTheorems.PageOfPass | contracts/credence_bond/src/liquidation_scanner.rs:276-380 | one page of a pass |
| ScannerTheorems.PageIsComplete | contracts/credence_bond/src/liquidation_scanner.rs:317-362 | a page reports a slot if and only if it qualifies |
| ScannerTheorems.CandidatesAreQualified | contracts/credence_bond/src/liquidation_scanner.rs:317-362 | candidates are exactly the qualified slots of the page |
| ScannerTheorems.RatioTestMeaning | contracts/credence_bond/src/liquidation_scanner.rs:345-353 | the ratio test is slashed/bonded >= min/10000 exactly, up to the overflow guard |
| ScannerTheorems.RegistrySizeIsActiveSlots | contracts/credence_bond/src/liquidation_scanner.rs:116-197 | RegistrySize is the number of active slots on every run |
| ScannerTheorems.AdvanceAfterScan | contracts/credence_bond/src/liquidation_scanner.rs:222-254 | after a scan that returned n, advance_keeper_cursor accepts m if and only if m is 0 or a slot beyond n; the documented advance to n succeeds if and only if n is 0 |
| ScannerTheorems.AdvanceSkips | contracts/credence_bond/src/liquidation_scanner.rs:222-254 | a keeper that advances past the returned cursor reports no holder in between, on either page |
| ScannerTheorems.KeeperCanSkip | contracts/credence_bond/src/liquidation_scanner.rs:222-254 | a reachable registry where a keeper skips an active holder over the ratio and is told that the pass is done |
| ScannerEffects.RegisterTakesEffect | contracts/credence_bond/src/liquidation_scanner.rs:116-161 | registering makes a holder active, a known one in its old slot, a new one at the end if there is room; the size grows exactly if it was not active; no other flag, slot, bond or cursor changes |
| ScannerEffects.DeregisterTakesEffect | contracts/credence_bond/src/liquidation_scanner.rs:169-197 | the holder is inactive afterwards and keeps its slot, the size drops if it was active; nobody else changes |
| ScannerEffects.RegisterUndoesDeregister | contracts/credence_bond/src/liquidation_scanner.rs:116-197 | registering again after deregistering restores the registry, slot included |
| ScannerEffects.DueQualifies | contracts/credence_bond/src/liquidation_scanner.rs:317-362 | a slot qualifies exactly if holder and bond are active, the bond is positive and the slashed ratio reaches the minimum |
| ScannerEffects.CandidatesAreDue | contracts/credence_bond/src/liquidation_scanner.rs:317-362 | a page lists just the due holders of its slots, in slot order, with the bond as stored |
| ScannerEffects.ScanSucceedsIff | contracts/credence_bond/src/liquidation_scanner.rs:276-315 | a scan is accepted exactly if the keeper signed it and its cursor is a slot, or there is none |
| ScannerEffects.ScanTakesEffect | contracts/credence_bond/src/liquidation_scanner.rs:276-380 | reports just the due holders of its page, the next cursor, and the number of active holders; stores the cursor for its keeper and changes nothing else |
| ScannerEffects.AdvanceTakesEffect | contracts/credence_bond/src/liquidation_scanner.rs:231-254 | exactly when an advance is accepted; it stores the cursor for its keeper and changes nothing else |
| ScannerEffects.ActiveIsHistory | contracts/credence_bond/src/liquidation_scanner.rs:116-197 | on every run a holder is active if and only if a call registered it and no later call deregistered it |
| ScannerContract.ScannerStore.RegisterBondHolder | contracts/credence_bond/src/liquidation_scanner.rs:116-161 | exactly the specified effect; the store stays the end of some run |
| ScannerContract.ScannerStore.DeregisterBondHolder | contracts/credence_bond/src/liquidation_scanner.rs:169-197 | exactly the specified effect; the store stays the end of some run |
| ScannerContract.ScannerStore.ScanLiquidationCandidates | contracts/credence_bond/src/liquidation_scanner.rs:276-380 | page, next cursor and done flag |
| ScannerContract.ScannerStore.ReadPage | contracts/credence_bond/src/liquidation_scanner.rs:317-362 | the scan loop |
| ScannerContract.ScannerStore.AdvanceKeeperCursor | contracts/credence_bond/src/liquidation_scanner.rs:231-254 | new cursor or error |
| AttestationTheorems.IndexAgrees | contracts/credence_bond/src/lib.rs:916-1204 | on every run a subject's list is exactly the increasing unrevoked ids issued for it and its count the length; the drift guard refuses no call but the write of a bond slashed by more than it holds |
| AttestationTheorems.IndexIsIncreasing | contracts/credence_bond/src/lib.rs:968-984 | the specified index is increasing and complete |
| AttestationTheorems.StepKeepsInv | contracts/credence_bond/src/invariants.rs:50-136 | every call keeps the index invariant; the guard fires exactly on the write of an unsound bond |
| AttestationTheorems.BatchIsFold | contracts/credence_bond/src/lib.rs:998-1141 | a successful batch equals adding its items one by one, but for the duplicate keys, and those exactly |
| AttestationTheorems.FoldIsFolded | contracts/credence_bond/src/lib.rs:998-1141 | the item-by-item fold of an admissible batch succeeds |
| AttestationTheorems.KeyIsHistory | contracts/credence_bond/src/lib.rs:916-1204 | on every run a duplicate key is stored if and only if a batch added the triple and no attestation of it was revoked since |
| AttestationTheorems.DuplicateRefusedIff | contracts/credence_bond/src/lib.rs:916-993 | exactly when a single addition is refused as a duplicate, in terms of the whole history |
| AttestationTheorems.RevocationFreesOtherKey | contracts/credence_bond/src/lib.rs:1144-1204 | add a triple singly, then in a batch, revoke the first: the key goes while the second stands, and the triple is accepted a third time |
| AttestationTheorems.BatchStoresRecords | contracts/credence_bond/src/lib.rs:1080-1131 | each record a batch returns is the one it stored |
| AttestationEffects.AddSucceedsIff | contracts/credence_bond/src/lib.rs:916-993 | succeeds exactly if the registered attester signed it with its next nonce, its duplicate key is free, the weight is from one to a million, and there is room |
| AttestationEffects.AddTakesEffect | contracts/credence_bond/src/lib.rs:916-993 | stored as given under the next id, unrevoked, listed last for its subject; the nonce is spent; no other record, list, count or nonce changes |
| AttestationEffects.RevokeSucceedsIff | contracts/credence_bond/src/lib.rs:1144-1204 | succeeds if and only if the verifier of an unrevoked record signed it with its stored nonce |
| AttestationEffects.RevokeTakesEffect | contracts/credence_bond/src/lib.rs:1144-1204 | marks that one record, takes it off its subject's list and count, spends the nonce and frees the key of the triple; every other record, list, count and nonce stays |
| AttestationEffects.ConsumedIff | contracts/credence_bond/src/lib.rs:1022-1037 | the first pass accepts a batch exactly if its attesters are distinct and each may act with its nonce |
| AttestationEffects.BatchSucceedsIff | contracts/credence_bond/src/lib.rs:998-1141 | succeeds exactly with one to 64 items of different attesters who all may act, no key taken, weights and their sum within the limits, and room for all |
| AttestationEffects.BatchTakesEffect | contracts/credence_bond/src/lib.rs:998-1141 | each item is stored as given under consecutive ids, listed last for the subject in order; each attester's nonce is spent; nothing else changes |
| AttestationEffects.RecordsGoBackToVerifiers | contracts/credence_bond/src/lib.rs:916-1204 | on every run each record is what a call stored that its verifier signed, and it stays unrevoked until a call its verifier signed |
| AttestationContract.CheckDistinct | contracts/credence_bond/src/lib.rs:1011-1019 | the pairwise loop decides distinctness of attesters |
| AttestationContract.ConsumeBatch | contracts/credence_bond/src/lib.rs:1022-1037 | the first pass over a batch: authorization, registration and nonces |
| AttestationContract.CheckBatch | contracts/credence_bond/src/lib.rs:1039-1070 | duplicate keys, weights and their sum |
| AttestationContract.WriteItems | contracts/credence_bond/src/lib.rs:1080-1131 | the write loop |
| AttestationContract.AttestationStore.AddAttestation | contracts/credence_bond/src/lib.rs:916-993 | new state and record; the guard does not fire |
| AttestationContract.AttestationStore.AddAttestationBatch | contracts/credence_bond/src/lib.rs:998-1141 | new state and the attestations returned; the guard does not fire |
| AttestationContract.AttestationStore.RevokeAttestation | contracts/credence_bond/src/lib.rs:1144-1204 | new state and result; the guard does not fire |
| AttestationContract.AttestationStore.AssertSelfConsistent | contracts/credence_bond/src/invariants.rs:50-136 | the guard, its bond half included, passes on every store that is the end of some run, for every subject |
| AttestationContract.AttestationStore.StoreBond | contracts/credence_bond/src/invariants.rs:50-110 | a bond write passes the guard at its end if and only if 0 <= slashed <= bonded, and is undone otherwise |
| DelegationTheorems.NoncesAreSingleUse | contracts/credence_delegation/src/nonce.rs:110-182 | on every run each nonce below the stored one was spent exactly once, by acceptance or invalidation and never both, all others never, always in increasing order |
| DelegationTheorems.AcceptedIncrease | contracts/credence_delegation/src/lib.rs:267-487 | accepted nonces of an owner strictly increase and avoid every range invalidated before |
| DelegationTheorems.NonceAcceptedOnce | contracts/credence_delegation/src/nonce.rs:110-123 | a nonce accepted by one entry point is refused by all of them after any further calls |
| DelegationTheorems.PayloadAcceptedOnce | contracts/credence_delegation/src/lib.rs:356-487 | a relayed payload accepted once is refused for ever, by every entry point and for every claimed owner |
| DelegationTheorems.InvalidatedForGood | contracts/credence_delegation/src/nonce.rs:161-182 | nonces passed over by an invalidation are refused for ever |
| DelegationTheorems.PayloadFitsOneAction | contracts/credence_delegation/src/domain.rs:97-116 | two calls that can each take one payload are the same entry point on the same owner and target of the same contract; kind and expiry stay open, see the next rows |
| DelegationTheorems.PayloadLeavesKindAndExpiryOpen | contracts/credence_delegation/src/domain.rs:97-116 | a payload accepted for one grant is accepted from the same state for another if and only if owner and delegate are the same and the expiry is admissible, whatever the kind |
| DelegationTheorems.PayloadLeavesRevokedKindOpen | contracts/credence_delegation/src/domain.rs:97-116 | the same for a relayed revocation: any revocable record of that owner and delegate, whatever the kind |
| DelegationTheorems.PayloadFitsTwoGrants | contracts/credence_delegation/src/lib.rs:356-395 | one payload, two grants of different kind and lifetime, each accepted from one reachable state and with different authority afterwards |
| DelegationTheorems.ReplayStopsAtNonce | contracts/credence_delegation/src/lib.rs:397-436 | the exact error of a replay: it never reaches the record |
| DelegationTheorems.AuthorityIsHistory | contracts/credence_delegation/src/lib.rs:586-602 | valid if and only if the last grant, at most 365 days old, has not expired and nothing revoked it since |
| DelegationTheorems.AuthorityNeverRevives | contracts/credence_delegation/src/lib.rs:871-937 | lost authority returns only through a new grant |
| DelegationTheorems.ViewsAgree | contracts/credence_delegation/src/lib.rs:499-520 | is_valid_delegate, summary.is_valid and status Active agree |
| DelegationTheorems.HousekeepingKeepsAuthority | contracts/credence_delegation/src/lib.rs:535-559 | no run of cleanups, grace settings and clock moves changes what authority anyone has at any time, but by expiry |
| DelegationTheorems.GrantTakesEffect | contracts/credence_delegation/src/lib.rs:871-911 | a grant gives its key authority until exactly the expiry asked for, at most 365 days away, through any calls that neither grant nor revoke that key, and touches no other key |
| DelegationTheorems.RevocationTakesEffect | contracts/credence_delegation/src/lib.rs:913-937 | a revocation ends authority until the next grant, whatever follows, and touches no other key |
| DelegationTheorems.StepKeepsInv | contracts/credence_delegation/src/lib.rs:267-672 | every call keeps the nonce and authority invariant |
| DelegationEffects.DelegateTakesEffect | contracts/credence_delegation/src/lib.rs:267-408 | exactly when a grant by the owner itself or relayed by payload succeeds, the owner in auth among the conditions; it stores one unrevoked record until the expiry asked for, spends the nonce and changes nothing else |
| DelegationEffects.RevokeTakesEffect | contracts/credence_delegation/src/lib.rs:296-448 | the same of a revocation, direct or relayed: it marks that record as of now and changes nothing else |
| DelegationEffects.RevokeAttestationTakesEffect | contracts/credence_delegation/src/lib.rs:314-487 | the same of the revocation of an attestation, by its attester |
| DelegationEffects.InvalidateTakesEffect | contracts/credence_delegation/src/nonce.rs:161-182 | exactly when an owner, by a call it signed, skips nonces, at most ten thousand at a time |
| DelegationEffects.CleanupTakesEffect | contracts/credence_delegation/src/lib.rs:535-559 | exactly when an expired record can go; only that one goes |
| DelegationEffects.AdminCallsTakeEffect | contracts/credence_delegation/src/lib.rs:630-725 | only the admin sets the grace period, unpaused, and the verifiers; nothing else changes |
| DelegationEffects.SummaryTells | contracts/credence_delegation/src/lib.rs:499-533 | the summary tells valid, in grace, expired or revoked by expiry, grace and revocation, and since when |
| DelegationEffects.CallsNeedSignatures | contracts/credence_delegation/src/lib.rs:267-487 | every call that spends a nonce of somebody, and every invalidation, is refused unless that somebody signed it, for that reason unless the contract is paused |
| DelegationEffects.EventsGoBackToSigners | contracts/credence_delegation/src/lib.rs:267-487 | on every run each nonce spent, range skipped, grant and revocation goes back to a successful call of the run that the owner concerned signed |
| DelegationEffects.AuthorityWasSigned | contracts/credence_delegation/src/lib.rs:267-300 | nobody has authority but by a grant of the run that the owner signed and that lasts beyond now |
| DelegationContract.DelegationStore.NonceError | contracts/credence_delegation/src/nonce.rs:110-123 | on a reachable store the check passes if and only if the claimed nonce is below the largest u64 and the first the history of that owner has not spent |
| DelegationContract.DelegationStore.Delegate | contracts/credence_delegation/src/lib.rs:267-287 | exactly the specified effect, errors in the source order; the store stays the end of some run |
| DelegationContract.DelegationStore.RevokeDelegation | contracts/credence_delegation/src/lib.rs:296-311 | exactly the specified effect, errors in the source order; the store stays the end of some run |
| DelegationContract.DelegationStore.RevokeAttestation | contracts/credence_delegation/src/lib.rs:314-329 | exactly the specified effect, errors in the source order; the store stays the end of some run |
| DelegationContract.DelegationStore.ExecuteDelegatedDelegate | contracts/credence_delegation/src/lib.rs:356-395 | exactly the specified effect, errors in the source order; the store stays the end of some run |
| DelegationContract.DelegationStore.ExecuteDelegatedRevoke | contracts/credence_delegation/src/lib.rs:410-436 | exactly the specified effect, errors in the source order; the store stays the end of some run |
| DelegationContract.DelegationStore.ExecuteDelegatedRevokeAttest | contracts/credence_delegation/src/lib.rs:450-487 | exactly the specified effect, errors in the source order; the store stays the end of some run |
| DelegationContract.DelegationStore.InvalidateNonceRange | contracts/credence_delegation/src/nonce.rs:161-182 | exactly the specified effect, errors in the source order; the store stays the end of some run |
| DelegationContract.DelegationStore.CleanupExpired | contracts/credence_delegation/src/lib.rs:535-559 | exactly the specified effect, errors in the source order; the store stays the end of some run |
| DelegationContract.DelegationStore.SetRevocationGracePeriod | contracts/credence_delegation/src/lib.rs:630-638 | exactly the specified effect, errors in the source order; the store stays the end of some run |
| DelegationContract.DelegationStore.RegisterVerifier | contracts/credence_delegation/src/lib.rs:697-725 | exactly the specified effect, errors in the source order; the store stays the end of some run |
| DelegationContract.DelegationStore.IsValidDelegate | contracts/credence_delegation/src/lib.rs:586-602 | the flag, and that it is what the whole history says |
| PausingTheorems.NoLockout | contracts/credence_delegation/src/pausable.rs:145-230 | count = number of signers, threshold <= count, threshold 0 iff no signer, on every run |
| PausingTheorems.CountIsFreshApprovers | contracts/credence_delegation/src/pausable.rs:244-261 | the stored count of a live proposal is the number of approvers newly recorded since its payload was written |
| PausingTheorems.ExecutionsAreApproved | contracts/credence_delegation/src/pausable.rs:353-387 | each execution had at least threshold distinct approvers, each a signer when approving and after the payload was written |
| PausingTheorems.FlipIsAuthorized | contracts/credence_delegation/src/pausable.rs:263-304 | the pause flag flips only by such an execution or by the authorized admin where allowed |
| PausingTheorems.ExecutionTakesEffect | contracts/credence_delegation/src/pausable.rs:353-387 | executable exactly when live with enough fresh approvers; then the action takes effect and the payload is gone |
| PausingTheorems.UnapprovedIff | contracts/credence_delegation/src/pausable.rs:353-387 | on every run an execution needed no approver exactly when nobody was a signer then |
| PausingTheorems.ExecutableUnapprovedIff | contracts/credence_delegation/src/pausable.rs:353-387 | a live proposal nobody freshly approved is executable if and only if there is no signer |
| PausingTheorems.CarriedIff | contracts/credence_delegation/src/pausable.rs:244-261 | a live proposal can still be carried without changing signers or threshold if and only if its fresh approvers and the signers with no approval of that id on record reach the threshold |
| PausingTheorems.SpentUntilSignersChange | contracts/credence_delegation/src/pausable.rs:314-387 | short of that, live or proposed again, no calls but a change of signers or threshold lead to its execution |
| PausingTheorems.RemovalExecutesUnapproved | contracts/credence_delegation/src/pausable.rs:145-210 | a run where a pause proposed again cannot be executed, until the admin removes the only signer and anyone executes it unapproved |
| PausingTheorems.ViewIsExact | contracts/credence_delegation/src/pausable.rs:441-499 | action, count and executed flag of the view in terms of the history |
| PausingTheorems.ExecutedFlagIsExact | contracts/credence_delegation/src/pausable.rs:481-490 | with all approvers as candidates the executed flag is exact although approvals outlive execution |
| PausingTheorems.ExecutedAsProposed | contracts/credence_delegation/src/pausable.rs:86-109 | on every run what is executed is what everybody who proposed that id asked for, if and only if no pause id of a 32-bit ledger is also an unpause id |
| PausingTheorems.RoundsShareNoApprover | contracts/credence_delegation/src/pausable.rs:314-334 | two executions under one id were carried by disjoint approvers |
| PausingTheorems.StepKeepsInv | contracts/credence_delegation/src/pausable.rs:145-387 | every call keeps the governance invariant |
| PausingEffects.SetSignerTakesEffect | contracts/credence_delegation/src/pausable.rs:145-210 | exactly when, and how, the admin makes somebody a signer or no signer, with count and threshold; nothing else changes |
| PausingEffects.SetThresholdTakesEffect | contracts/credence_delegation/src/pausable.rs:212-230 | the admin sets a threshold the signers can meet, zero only without signers |
| PausingEffects.ProposeTakesEffect | contracts/credence_delegation/src/pausable.rs:314-334 | a signer proposes by a call it signed and approves by that; the action is stored under the epoch's id unless one is live there |
| PausingEffects.ApproveTakesEffect | contracts/credence_delegation/src/pausable.rs:336-351 | a signer approves what is live by a call it signed, and nothing else changes |
| PausingEffects.PauseTakesEffect | contracts/credence_delegation/src/pausable.rs:263-312 | the admin alone where there is no signer, the admin at any time to unpause, and else a proposal by a signer |
| PausingEffects.EventsGoBackToSigners | contracts/credence_delegation/src/pausable.rs:145-387 | on every run signers come and go by calls the admin signed; payloads and approvals go back to calls a signer of that moment signed; an execution carries out what was live at the threshold of that moment |
| PausingContract.PauseStore.SetPauseSigner | contracts/credence_delegation/src/pausable.rs:145-210 | exactly the specified effect, errors in the source order; the store stays the end of some run |
| PausingContract.PauseStore.SetPauseThreshold | contracts/credence_delegation/src/pausable.rs:212-230 | exactly the specified effect, errors in the source order; the store stays the end of some run |
| PausingContract.PauseStore.RecordApproval | contracts/credence_delegation/src/pausable.rs:244-261 | exactly the specified effect and result, at any point of the calls that use it |
| PausingContract.PauseStore.ProposeAction | contracts/credence_delegation/src/pausable.rs:314-334 | new state, id or error |
| PausingContract.PauseStore.Pause | contracts/credence_delegation/src/pausable.rs:263-276 | exactly the specified effect; the id derived from action and epoch when proposing, none otherwise; the store stays the end of some run |
| PausingContract.PauseStore.Unpause | contracts/credence_delegation/src/pausable.rs:278-304 | exactly the specified effect; the id derived from action and epoch when proposing, none otherwise; the store stays the end of some run |
| PausingContract.PauseStore.ApprovePauseProposal | contracts/credence_delegation/src/pausable.rs:336-351 | exactly the specified effect, errors in the source order; the store stays the end of some run |
| PausingContract.PauseStore.ExecutePauseProposal | contracts/credence_delegation/src/pausable.rs:353-387 | exactly the specified effect, errors in the source order; the store stays the end of some run |
| PausingContract.PauseStore.GetPauseProposalState | contracts/credence_delegation/src/pausable.rs:441-499 | the view, and the exact meaning of its executed flag |
| FixedPoint.MulDivIsExact | contracts/credence_math/src/lib.rs:174-220 | mul_div returns r if and only if denom is nonzero and r is the mathematically rounded quotient and fits in i128 |
| FixedPoint.RoundingIsTotal | contracts/credence_math/src/lib.rs:174-220 | the rounded quotient exists and is unique, so failure means exactly that it does not fit |
| FixedPoint.QuotientRounds | contracts/credence_math/src/lib.rs:183-201 | the 256-bit quotient with its adjustment is the rounded magnitude and nothing wraps |
| FixedPoint.BpsAgrees | contracts/credence_math/src/lib.rs:225-228 | bps is mul_div rounded down, restricted to products that fit |
| FixedPoint.BpsRoundUpIsTight | contracts/credence_math/src/lib.rs:245-253 | rounding up differs from down by one exactly on a remainder; never fails up to 100% |
| FixedPoint.SplitConserves | contracts/credence_math/src/lib.rs:265-275 | fee + net = amount; a split fails only when the product does not fit |
| FixedPoint.CeilDivAgrees | contracts/credence_math/src/lib.rs:137-145 | on its stated domain it is mul_div rounded up |
| FixedPoint.CeilDivIsCeilingIff | contracts/credence_math/src/lib.rs:137-145 | for all i128 inputs: when it returns a result, and exactly when that is the ceiling |
| FixedPoint.CeilDivCounterexample | contracts/credence_math/src/lib.rs:137-145 | -4 / 2 gives -1 |
| EarlyExitTheorems.PenaltyInRange | contracts/credence_bond/src/early_exit_penalty.rs:43-57 | the penalty lies in [0, amount], overflow included |
| EarlyExitTheorems.PenaltyNearExact | contracts/credence_bond/src/early_exit_penalty.rs:43-57 | within one of the floored exact value if and only if no product overflows |
| EarlyExitTheorems.MonotoneIffNoOverflow | contracts/credence_bond/src/early_exit_penalty.rs:43-57 | no smaller amount or shorter time costs more than a given one, if and only if no product overflows there |
| EarlyExitTheorems.SplitsFairlyIffNoOverflow | contracts/credence_bond/src/early_exit_penalty.rs:43-57 | every split of an amount keeps within 2(k - 1) of the whole and never above it, if and only if no product overflows for the whole |
| EarlyExitTheorems.PartsLoseLittle | contracts/credence_bond/src/early_exit_penalty.rs:43-57 | in k parts the total never rises and falls by at most 2(k - 1) |
| EarlyExitTheorems.SplitCheckFiresOnlyOnNegative | contracts/credence_bond/src/lib.rs:1584-1613 | the split check fires exactly on negative amounts; later checks never do |
| EarlyExitTheorems.WithdrawalConserves | contracts/credence_bond/src/lib.rs:1561-1654 | bond, treasury and owner conserve the amount |
| EarlyExitTheorems.SplittingSavesLittle | contracts/credence_bond/src/lib.rs:1561-1654 | withdrawing in parts leaves the same bond and saves at most 2(k - 1) |
| EarlyExitTheorems.PartsMove | contracts/credence_bond/src/lib.rs:1561-1654 | a run of withdrawals succeeds exactly when their total may be withdrawn, and what it moves |
| EarlyExitTheorems.WithdrawSucceedsIff | contracts/credence_bond/src/lib.rs:1561-1654 | exactly when a withdrawal succeeds: own bond, still locked, exit configured, amount within what is not slashed |
| EarlyExitTheorems.WithdrawCharges | contracts/credence_bond/src/lib.rs:1561-1613 | the charge is the configured share of the amount for the remaining lock-up, floored, or one less, exactly if no product overflows |
| EarlyExitContract.EarlyExitStore.SetConfig | contracts/credence_bond/src/early_exit_penalty.rs:16-32 | new state, rate capped |
| EarlyExitContract.EarlyExitStore.WithdrawEarly | contracts/credence_bond/src/lib.rs:1561-1654 | exactly when it succeeds, new bond and transfers |
| JsonTheorems.BaselineRoundTripIff | contracts/credence_bond/benches/harness.rs:176-343 | reading a printed baseline gives the written tolerance and exactly the tracked costs if and only if their i64 metrics are doubles or the largest i64 |
| JsonTheorems.BaselineRoundTrip | contracts/credence_bond/benches/harness.rs:176-343 | in particular whenever no metric exceeds 2^53 in magnitude |
| JsonTheorems.PrintedBaselineReads | contracts/credence_bond/benches/harness.rs:314-343 | what is read back for every table of costs |
| JsonTheorems.DocumentReads | contracts/credence_bond/benches/harness.rs:225-290 | every printable document is read back as its decoding |
| JsonTheorems.ReadsRendered | contracts/credence_bond/benches/harness.rs:225-290 | the same wherever the document stands in a text |
| JsonTheorems.IntRoundTrip | contracts/credence_bond/benches/harness.rs:277-289 | a printed integer parses to the nearest double |
| JsonTheorems.ScientificReads | contracts/credence_bond/benches/harness.rs:277-289 | a literal with fraction and exponent reads as its digits with the point moved by the exponent, for either letter |
| JsonTheorems.Signed | contracts/credence_bond/benches/harness.rs:277-289 | a sign before a literal is read as its sign and changes nothing else |
| JsonTheorems.RoundedIsNearest | contracts/credence_bond/benches/harness.rs:277-289 | the rounding used for doubles picks a nearest multiple, and the even one of two |
| JsonTheorems.DoubleIff | contracts/credence_bond/benches/harness.rs:299-304 | an integer survives as a double exactly when it is a multiple of the spacing at its magnitude |
| JsonTheorems.I64RoundTripIff | contracts/credence_bond/benches/harness.rs:325-335 | exactly which i64 metrics survive the cast back |
| JsonTheorems.BeyondDoubles | contracts/credence_bond/benches/harness.rs:299-304 | 2^53 + 1 does not survive |
| JsonTheorems.SmallFraction | contracts/credence_bond/benches/harness.rs:277-289 | a fraction below 2^52 reads as k / 2^j with 53 binary digits, off by at most half a step |
| JsonTheorems.LargeFraction | contracts/credence_bond/benches/harness.rs:277-289 | a fraction from 2^52 on reads as a multiple of its step, off by at most half of it |
| JsonTheorems.CastsTruncate | contracts/credence_bond/benches/harness.rs:325-335 | the casts drop the fraction toward zero and stop at the ends of their types |
| JsonTheorems.CostReadsIff | contracts/credence_bond/benches/harness.rs:322-337 | an entry is read if and only if all six metrics are there as numbers, each its first member of the name |
| JsonTheorems.CostsReadIff | contracts/credence_bond/benches/harness.rs:322-337 | the entries are read if and only if each of them is |
| JsonTheorems.LastCostCounts | contracts/credence_bond/benches/harness.rs:322-337 | of several entries with one name the last counts |
| JsonTheorems.BaselineReadsIff | contracts/credence_bond/benches/harness.rs:314-343 | a document is a baseline if and only if its tolerance, if any, is a number and each entry point has all its metrics |
| JsonHarness.Reader.Ws | contracts/credence_bond/benches/harness.rs:226-230 | the index after white space |
| JsonHarness.Reader.Value | contracts/credence_bond/benches/harness.rs:232-239 | value and final index, on every text, with termination |
| JsonHarness.Reader.Object | contracts/credence_bond/benches/harness.rs:241-261 | object and final index, with termination |
| JsonHarness.Reader.String | contracts/credence_bond/benches/harness.rs:263-275 | string and final index |
| JsonHarness.Reader.Number | contracts/credence_bond/benches/harness.rs:277-289 | number and final index |
| JsonHarness.ParseBaseline | contracts/credence_bond/benches/harness.rs:314-343 | the baseline or the failure the text specifies |
| JsonHarness.CollectCosts | contracts/credence_bond/benches/harness.rs:322-337 | the loop over the entries |
| JsonHarness.ToJson | contracts/credence_bond/benches/harness.rs:176-204 | the printed document |
| JsonHarness.PushEntry | contracts/credence_bond/benches/harness.rs:191-200 | the text of one entry |
| JsonHarness.TrackedNames | contracts/credence_bond/benches/harness.rs:184-188 | the measured entry points in canonical order |
| ArbitrationTheorems.TalliesAreBallots | contracts/arbitration/src/lib.rs:299-373 | each tally is the recorded weight for its outcome; an outcome is stored iff voted for |
| ArbitrationTheorems.CounterIsVoters | contracts/arbitration/src/lib.rs:341-350 | the voter counter is the number of distinct voters |
| ArbitrationTheorems.ResolutionIsStrictWinner | contracts/arbitration/src/lib.rs:376-517 | a resolve returns the unique strict maximum; 0 and Tied iff no votes or the maximum is shared |
| ArbitrationTheorems.TalliesFrozen | contracts/arbitration/src/lib.rs:325-333 | tallies, counter and ballots are frozen once voting is over |
| ArbitrationTheorems.FinalForever | contracts/arbitration/src/status.rs:51-66 | resolved, tied and cancelled disputes never change |
| ArbitrationTheorems.VoteTakesEffect | contracts/arbitration/src/lib.rs:299-373 | a vote raises the stored tally of its outcome, the voter counter and the quorum total by exactly the recorded weight and one, and nothing of any other dispute |
| ArbitrationTheorems.OneVoteEach | contracts/arbitration/src/lib.rs:335-341 | nobody votes twice in a dispute, after whatever calls |
| ArbitrationTheorems.StoredStatus | contracts/arbitration/src/lib.rs:188-517 | a stored status is never Open or Resolving; outcome nonzero iff Resolved |
| ArbitrationTheorems.ResolutionIsLive | contracts/arbitration/src/lib.rs:376-433 | a dispute past its end resolves if and only if it is Voting and, where a quorum is set, the ballots cast weigh enough, fit an i128 and come from enough different voters |
| ArbitrationTheorems.RegistryIsExact | contracts/arbitration/src/lib.rs:99-184 | the registry lists the arbitrators once each |
| ArbitrationTheorems.TotalIsAllBallots | contracts/arbitration/src/lib.rs:409-414 | the quorum total, summed over the stored tallies, is the weight of all ballots cast in the dispute |
| ArbitrationTheorems.StepKeepsInv | contracts/arbitration/src/lib.rs:99-517 | every call keeps the invariant |
| ArbitrationEffects.RegisterTakesEffect | contracts/arbitration/src/lib.rs:99-147 | exactly for the unpaused signing admin and a positive weight; the stored weight is the one given, everybody else's stays |
| ArbitrationEffects.UnregisterTakesEffect | contracts/arbitration/src/lib.rs:150-184 | the admin takes an arbitrator off; the others keep weight and order |
| ArbitrationEffects.SettingsTakeEffect | contracts/arbitration/src/lib.rs:526-552 | the first to initialize is the admin; only the admin sets the quorum; nothing else changes |
| ArbitrationEffects.CreateTakesEffect | contracts/arbitration/src/lib.rs:188-236 | exactly when a dispute opens; it has the next id, its creator and text, no votes, and the duration asked for |
| ArbitrationEffects.CancelTakesEffect | contracts/arbitration/src/lib.rs:239-296 | exactly when creator or admin cancels; stored with reason and role, no other dispute changes |
| ArbitrationEffects.VoteSucceedsIff | contracts/arbitration/src/lib.rs:299-373 | an arbitrator votes once, signed, for an outcome other than 0, while the dispute is open |
| ArbitrationEffects.VoteIsRecorded | contracts/arbitration/src/lib.rs:299-373 | the ballot is on record with the stored weight of the voter; only tally, counter and voter mark change |
| ArbitrationEffects.ResolveTakesEffect | contracts/arbitration/src/lib.rs:376-517 | a resolution changes nothing but status and outcome of its dispute |
| ArbitrationEffects.BallotsGoBackToVoters | contracts/arbitration/src/lib.rs:99-373 | on every run each ballot goes back to a call its voter signed and weighs what the voter weighed then; each weight is what an admin-signed call gave |
| ArbitrationEffects.DisputesGoBackToCreators | contracts/arbitration/src/lib.rs:188-236 | on every run each dispute is, but for how it ended, what a call its creator signed opened |
| ArbitrationEffects.CancellationsGoBack | contracts/arbitration/src/lib.rs:239-296 | on every run a cancellation goes back to a call the creator or the admin signed, for that reason |
| ArbitrationContract.TallyLoop | contracts/arbitration/src/lib.rs:446-471 | the tally loop finds the strict winner in any order |
| ArbitrationContract.SumLoop | contracts/arbitration/src/lib.rs:409-414 | the checked sum |
| ArbitrationContract.ArbitrationStore.RegisterArbitrator | contracts/arbitration/src/lib.rs:99-147 | exactly the specified effect, errors in the source order; the store stays the end of some run |
| ArbitrationContract.ArbitrationStore.UnregisterArbitrator | contracts/arbitration/src/lib.rs:150-184 | exactly the specified effect, errors in the source order; the store stays the end of some run |
| ArbitrationContract.ArbitrationStore.CreateDispute | contracts/arbitration/src/lib.rs:188-236 | exactly the specified effect and id; the store stays the end of some run |
| ArbitrationContract.ArbitrationStore.CancelDispute | contracts/arbitration/src/lib.rs:239-296 | exactly the specified effect, errors in the source order; the store stays the end of some run |
| ArbitrationContract.ArbitrationStore.CastVote | contracts/arbitration/src/lib.rs:299-373 | exactly the specified effect, errors in the source order; the store stays the end of some run |
| ArbitrationContract.ArbitrationStore.CheckQuorum | contracts/arbitration/src/lib.rs:394-433 | the quorum check |
| ArbitrationContract.ArbitrationStore.ResolveDispute | contracts/arbitration/src/lib.rs:376-517 | new state and outcome |
| ArbitrationContract.ArbitrationStore.SetQuorum | contracts/arbitration/src/lib.rs:526-552 | exactly the specified effect, errors in the source order; the store stays the end of some run |
| AdminTheorems.IndexesAgree | contracts/admin/src/lib.rs:131-500 | admin list = records without repetition; each role list exactly that role once each; 1 <= count <= max |
| AdminTheorems.RolesPartition | contracts/admin/src/lib.rs:131-500 | the role lists partition the admin list |
| AdminTheorems.SuspendLeavesEnough | contracts/admin/src/lib.rs:631-696 | a suspension leaves at least MinAdmins effective admins, the target not among them |
| AdminTheorems.CountIsEffective | contracts/admin/src/lib.rs:664-684 | the counting loop counts distinct effective admins |
| AdminTheorems.RoleChangesAreAuthorized | contracts/admin/src/lib.rs:1025-1075 | a role appears or changes only by a call naming that admin and role, signed by a caller effective then with the role required to assign it; an admin leaves only by a removal signed by a caller who strictly outranks it |
| AdminTheorems.RolesGoBackToGrants | contracts/admin/src/lib.rs:131-500 | on every run the role of every admin goes back to a successful, authorized call of that run |
| AdminTheorems.SuperStaysIff | contracts/admin/src/lib.rs:418-500 | a step keeps a super admin if and only if it is not a successful update of the only one to a lower role |
| AdminTheorems.NoSuperForever | contracts/admin/src/lib.rs:131-500 | once lost, no later call brings a super admin back |
| AdminTheorems.AdminDemotesRoot | contracts/admin/src/lib.rs:418-500 | a reachable state where a plain admin demotes the only super admin |
| AdminTheorems.DeactivationCountsDown | contracts/admin/src/lib.rs:515-549 | a deactivation removes its target from the effective admins, and exactly when MinAdmins still holds afterwards |
| AdminTheorems.RemovalCountsDown | contracts/admin/src/lib.rs:319-399 | the same of a removal, for the effective admins and for the list |
| AdminTheorems.BelowMinAdmins | contracts/admin/src/lib.rs:131-204 | a run with MinAdmins 2 that starts with one admin, reaches two, and by a deactivation as by a removal goes back to one |
| AdminTheorems.RankIgnoresStatus | contracts/admin/src/lib.rs:319-601 | removing, deactivating and reactivating others succeed or fail alike whatever the status of the caller |
| AdminTheorems.IneffectiveCaller | contracts/admin/src/lib.rs:224-696 | exactly the calls a deactivated or suspended admin still makes with success |
| AdminTheorems.DeactivationIsUndone | contracts/admin/src/lib.rs:515-601 | a deactivated admin reactivates itself, and the state is as before |
| AdminTheorems.StepKeepsInv | contracts/admin/src/lib.rs:131-696 | every call keeps the three indexes in agreement |
| AdminEffects.InitializeTakesEffect | contracts/admin/src/lib.rs:131-204 | exactly once, signed by the first admin, who is the one super admin then |
| AdminEffects.AddSucceedsIff | contracts/admin/src/lib.rs:224-303 | appointed exactly by a signer in office who may assign the role, while there is room |
| AdminEffects.AddTakesEffect | contracts/admin/src/lib.rs:224-303 | in office from now with the role asked for, at the end of both lists; nobody else changes |
| AdminEffects.RemoveTakesEffect | contracts/admin/src/lib.rs:319-399 | exactly when; on no list afterwards; nobody else changes |
| AdminEffects.UpdateSucceedsIff | contracts/admin/src/lib.rs:418-500 | exactly who may change whose role |
| AdminEffects.UpdateTakesEffect | contracts/admin/src/lib.rs:418-500 | it moves to the end of the list of its new role, with by whom and when; nobody else changes |
| AdminEffects.DeactivateTakesEffect | contracts/admin/src/lib.rs:515-549 | exactly when; only that status changes |
| AdminEffects.ReactivateTakesEffect | contracts/admin/src/lib.rs:564-601 | exactly when; only that status changes |
| AdminEffects.SuspendTakesEffect | contracts/admin/src/lib.rs:631-696 | exactly when, the number of others in office included; only that status changes |
| AdminEffects.StatusChangesAreAuthorized | contracts/admin/src/lib.rs:515-696 | the status of an admin changes only by a call naming it, signed by one who outranks it, or is not outranked to bring back or suspend |
| AdminContract.AdminStore.Initialize | contracts/admin/src/lib.rs:131-204 | exactly the specified effect, errors in the source order; the store stays the end of some run |
| AdminContract.AdminStore.AddAdmin | contracts/admin/src/lib.rs:224-303 | exactly the specified effect, errors in the source order; the store stays the end of some run |
| AdminContract.AdminStore.RemoveAdmin | contracts/admin/src/lib.rs:319-399 | exactly the specified effect, errors in the source order; the store stays the end of some run |
| AdminContract.AdminStore.UpdateAdminRole | contracts/admin/src/lib.rs:418-500 | exactly the specified effect, errors in the source order; the store stays the end of some run |
| AdminContract.AdminStore.DeactivateAdmin | contracts/admin/src/lib.rs:515-549 | exactly the specified effect, errors in the source order; the store stays the end of some run |
| AdminContract.AdminStore.ReactivateAdmin | contracts/admin/src/lib.rs:564-601 | exactly the specified effect, errors in the source order; the store stays the end of some run |
| AdminContract.AdminStore.SuspendAdmin | contracts/admin/src/lib.rs:631-696 | exactly the specified effect, errors in the source order; the store stays the end of some run |
| AdminContract.CountEffectiveBut | contracts/admin/src/lib.rs:664-684 | the counting loop |
| RegistryTheorems.RegistryIsBijection | contracts/credence_registry/src/lib.rs:141-233 | identity-to-bond and bond-to-identity are mutually inverse |
| RegistryTheorems.ListIsRegistrationOrder | contracts/credence_registry/src/lib.rs:347-388 | the list holds the registered identities once each, in registration order |
| RegistryTheorems.NoSecondRegistration | contracts/credence_registry/src/lib.rs:141-233 | the exact outcome of registering a registered identity or bond again, by the admin or by a bond |
| RegistryTheorems.RemoveUndoesRegister | contracts/credence_registry/src/lib.rs:347-388 | removing undoes registering: both maps and the list are as before |
| RegistryTheorems.WalkIsList | contracts/credence_registry/src/lib.rs:454-478 | a walk by returned length reproduces the list |
| RegistryTheorems.InterleavedWalkIsList | contracts/credence_registry/src/lib.rs:442-478 | as long as what is removed between the pages is yet unread, the walk reads the list as it is when the walk ends, without gap or duplicate |
| RegistryTheorems.GapIff | contracts/credence_registry/src/lib.rs:442-478 | after any calls between two pages the reader misses nobody registered throughout, if and only if all it read stay registered or no unread one does |
| RegistryTheorems.RemovalHidesIff | contracts/credence_registry/src/lib.rs:347-388 | one removal hides no other unread identity if and only if the removed one was unread or nothing was |
| RegistryTheorems.RereadIff | contracts/credence_registry/src/lib.rs:442-478 | after any calls an identity already read is read again if and only if it was registered again and at least offset many registered ones come before it |
| RegistryTheorems.RegisteringAgainRepeatsIff | contracts/credence_registry/src/lib.rs:347-388 | an identity removed and registered again after being read comes twice if and only if anything was unread |
| RegistryTheorems.PagingMissesAndRepeats | contracts/credence_registry/src/lib.rs:442-478 | a run from the start where a walk misses one identity and reads another twice |
| RegistryTheorems.StrideIsListIff | contracts/credence_registry/src/lib.rs:454-478 | a walk by the caller's own limit does iff the limit respects the cap or one page holds the rest |
| RegistryTheorems.StepKeepsInv | contracts/credence_registry/src/lib.rs:141-388 | every call keeps maps and list in agreement |
| RegistryEffects.RegisterTakesEffect | contracts/credence_registry/src/lib.rs:141-233 | exactly when the admin may register; both maps, list and the unsupported note afterwards; no other entry changes |
| RegistryEffects.TrustlessTakesEffect | contracts/credence_registry/src/lib.rs:684-775 | exactly when a bond registers itself, signed and with the pinned code; a repeated registration changes nothing |
| RegistryEffects.SetActiveTakesEffect | contracts/credence_registry/src/lib.rs:301-427 | the admin deactivates what is active and reactivates what is not; nothing else changes |
| RegistryEffects.RemoveTakesEffect | contracts/credence_registry/src/lib.rs:347-388 | the admin removes an identity with its bond; the others keep their order |
| RegistryEffects.SettingsTakeEffect | contracts/credence_registry/src/lib.rs:97-123 | the first to initialize, by a call it signed, is the admin; only the admin pins and unpins |
| RegistryEffects.PageTells | contracts/credence_registry/src/lib.rs:454-478 | a page is the slice asked for, cut to 200 and to the list |
| RegistryEffects.EntriesGoBackToCalls | contracts/credence_registry/src/lib.rs:141-233 | on every run each registration goes back to a call naming just this identity and bond, signed by the admin or the bond, at the moment on record |
| RegistryContract.RegistryStore.Initialize | contracts/credence_registry/src/lib.rs:97-123 | exactly the specified effect, errors in the source order; the store stays the end of some run |
| RegistryContract.RegistryStore.Register | contracts/credence_registry/src/lib.rs:141-233 | exactly the specified effect, errors in the source order; the store stays the end of some run |
| RegistryContract.RegistryStore.RegisterTrustless | contracts/credence_registry/src/lib.rs:684-775 | exactly the specified effect, errors in the source order; the store stays the end of some run |
| RegistryContract.RegistryStore.SetActive | contracts/credence_registry/src/lib.rs:301-427 | exactly the specified effect, errors in the source order; the store stays the end of some run |
| RegistryContract.RegistryStore.Remove | contracts/credence_registry/src/lib.rs:347-388 | exactly the specified effect, errors in the source order; the store stays the end of some run |
| RegistryContract.RegistryStore.SetBondCodeHash | contracts/credence_registry/src/lib.rs:624-641 | exactly the specified effect, errors in the source order; the store stays the end of some run |
| RegistryContract.RegistryStore.GetIdentitiesPage | contracts/credence_registry/src/lib.rs:454-478 | page of the stored list |
| RegistryContract.ReadPage | contracts/credence_registry/src/lib.rs:454-478 | the page loop |

## Left out

- Host plumbing: storage lifetimes and archival, events, metering, encodings; entries persist.
- Cryptography of authorization: signatures, SHA-256, verifier contracts, WASM code hashes.
- Tokens, callbacks, reentrancy locks: a transfer is a change of history.
- The pause governance copies of the other contracts, simpler than the delegation one; elsewhere the pause flag is set freely between calls.
- The remaining setters, getters and smaller contracts (parameters, fees, cooldown, emergency, evidence, access control, governance approval, upgrade authorization, ownership and admin transfer): each checks a caller and stores a value, and none touches the state modelled here but through the settings taken as parameters.
- Attester weights: any function the caller supplies; the batch's weight limit is a parameter.
- Arbitrator pages and the other plain views.
- Bond creation, top-up, slashing and tiers: bonds are written freely between calls where the scanner and `withdraw_early` read them, and in the attestation store through the guard they end with.
- ParseDouble: does not model infinity, so a literal beyond the largest double reads as the rounded integer instead; the casts saturate alike, and only a tolerance of that size would differ. Invalid UTF-8 slices are not modelled either, a document being a sequence of single bytes.
- The bench's comparison of two baselines, which is floating point arithmetic.
- OffsetWalkIsRest: is about a list that stands still; `OffsetGapIff` says what calls between two pages do.
