# Warehouse protocols, modelled and proved in Dafny

The warehouse backend is a set of small database transactions that many people run at once. This
project models the ones whose correctness spans several services and proves what their comments
promise, for every input, every run and every interleaving the model allows. Where the code does less
than its comments say, the project keeps the code, shows an input that fails, and proves exactly when
the promise holds.

Each transaction is one atomic step over finite tables. A table is a sequence or a map of records; an
id is an index where rows are never deleted. Where the code reads a record before its transaction and
acts on it inside, the model takes two steps: calls of a run carry the index of the state they read, so
theorems about runs hold for every staleness. Each transaction appears twice: as a function (the
specification, which the run theorems are about) and as a method of a class that changes fields in
place, loop by loop, proved equal to it.

- Stock ledger and cycle counts: `Stock`, `Tables`, `Movements`, `CycleCount`; whole runs in
  `LedgerRuns`; exactly when each request is accepted and what it leaves in `MovementEffects`,
  `IssueEffects` and `CountEffects`, reservations over runs in `ReservationRuns`; the count lock in
  `CountLock` and `LockRuns`, the run that breaks it in `ReopenedCount`, approval and recovery in
  `CountApproval`, counted quantities over runs in `CountRuns` and `StaleCount`, submissions over runs in
  `SubmissionRuns`, `QuietRuns` and `StaleSubmission`, the imperative form in `Store` and `StoreRuns`.
  FIFO selection against the availability total in `FifoPool`; location resolution in `Locations`;
  stuck reservations in `StuckReservation`.
- Approval engine: rules in `ApprovalRules`, chains in `Decisions`, the machine of interleaved calls
  in `Engine` and `EngineRuns`, which rules are stored in `RuleWrites`, which chains start in
  `ApprovalStarts`, who may decide in `DecisionRights`, what its callers return in `Callers` and `CallersDisagree`, the
  imperative form in `ApprovalStore`.
- Serial guard: the machine of writers in `SerialGuard`, its steps in `GuardEffects`, uniqueness in
  `SerialRuns`, deadlock in
  `Deadlocks`, direct creation of stock in `DirectCreate`.
- Product import: `Text`, `ProductDedupe`, `Reimport`.
- Issued units: `IssuedUnits`, `ShippedUnits`.
- Audit archive: `AuditRetention`, repeated runs in `ArchiveReruns`. Logo headers: `LogoImage`. Login
  lockout: `LoginLockout`, overlapping logins in `LoginOverlap`.

## Where the code and its comments differ

- A recount writes the session status unconditionally after checking an earlier read, so it can reopen
  a closed count (`LockRuns.LockHoldsIff`, `ReopenedCount.StaleRecountReopensClosedCount`).
- A line counted from a read that a recount overtook stores a wrong variance, and approval can then
  skip a real difference. In these machines it takes the recount fault above: while recounts are
  current every variance is true (`CountRuns.VariancesTrueIff`, `CountRuns.CountsAreCurrent`,
  `StaleCount.StaleCountHidesVariance`).
- A submission checks the lines it read and writes the session as it is, so a recount in between lets a
  count nobody finished be submitted and approved (`SubmissionRuns.ReviewedAreCountedIff`,
  `StaleSubmission.StaleSubmissionClosesUncounted`). It takes the recount fault again
  (`QuietRuns.ReviewedAreCountedQuietly`).
- Priorities are checked before the write, so two administrators can store the same one
  (`EngineRuns.PrioritiesUniqueIff`).
- Callers of `ensurePendingInstance` need not agree: they do exactly when none of them settled before
  the chain that sorts first by (createdAt, id) existed, for which creation in that order is enough
  (`Callers.CallersAgreeInTimeIff`, `Callers.CallersAgree`, `CallersDisagree.ClocksOutOfOrderDisagree`).
- Sorted advisory locks deadlock if hashes collide in certain patterns (`Deadlocks.DeadlockReachableIff`,
  `Deadlocks.CollidingHashesCross`), and direct stock creation stores the serial untrimmed, so a serial
  can be created twice (`SerialRuns.GuardIsExactIff`, `DirectCreate.DuplicateIsAcceptedIff`).
- An archive run that moved exactly its limit says more remain when nothing does
  (`AuditRetention.MoreRemainsIff`), and the underscores in the protected patterns match any character
  (`AuditRetention.LikeIff`). Repeated runs equal one unbounded move unless the retention was made
  longer in between (`ArchiveReruns.RerunsAreOneMoveIff`, `ArchiveReruns.LongerRetentionDiffers`).
- Location resolution returns more than the supplied keys, and a new warehouse or rack alone leaves the
  old rack or slot on the row (`Locations.MoveIsConsistentIff`, `Locations.RackIsLeftBehind`).
- A brand code that goes on after another one and a bar makes different products look alike
  (`ProductDedupe.SameKeyIff`, `ProductDedupe.BrandsConfusedIff`).
- A unit recorded for one line can be given to the next line of its product as well
  (`ShippedUnits.ShipsTwiceIff`, `ShippedUnits.RecordedUnitShipsAgain`).
- A stuck reservation's lines are cleared as read, even if given another unit since
  (`StuckReservation.ReleaseSparesOtherUnitsIff`), and the unit is freed even if it is being picked for
  another request by then (`StuckReservation.ReleaseFreesInUseIff`, `StuckReservation.PickedUnitIsFreed`).
- The lock of five failures bounds the checks of overlapping logins at a much higher number, because a
  stale write can lower the count and lift the lock (`LoginOverlap.OverlapBound`).

## Model

| member | source | states |
|---|---|---|
| LedgerRuns.LedgerEquation | backend/src/inventory/inventory-orchestration.service.ts:158-195 | Over every run of all modelled movements, adjustments and counts, with any stale reads: total quantity on record = quantity created + sum of (after − before) over completed adjustments linked to stock |
| LedgerRuns.AdjustmentsSeparated | backend/src/adjustment/adjustment.service.ts:59-70 | In every reachable state a completed adjustment, count approvals included, has an approver other than its requester (the empty approver id, which the check lets through, excepted) |
| LedgerRuns.RunCoherent | backend/src/cycle-count/cycle-count.service.ts:203-270 | Every state of a run balances, keeps requesters and approvers apart and only moves forward from each earlier one, whatever snapshot a call acts on |
| LedgerRuns.ApplyRecords | backend/src/cycle-count/cycle-count.service.ts:220-246 | The approval loop adds to the stock exactly what the adjustments it writes record, and no approver is recorded as requester |
| LedgerRuns.IssueMoves | backend/src/inventory/inventory-orchestration.service.ts:158-195 | Goods issue of any list of rows, splits included, changes no total, no session and no adjustment, and never removes a row |
| Stock.SplitConserves | backend/src/common/stock-state.ts:51-84 | A split keeps the total; the row keeps exactly the quantity asked for, its remainder the positive rest without a serial, in the status asked for and with the warehouse and date of the row; a remainder is made if and only if 0 < quantity asked for < quantity and the row has no serial; no other row changes |
| MovementEffects.ReserveIs | backend/src/inventory/inventory-orchestration.service.ts:71-87 | In any state of a run a reservation is accepted if and only if the row is there, AVAILABLE and on no live line of a running count; the row is then RESERVED and nothing else changes |
| MovementEffects.AllocateIs | backend/src/inventory/inventory-orchestration.service.ts:20-87 | Allocation is accepted if and only if the row is there, of the product, AVAILABLE, positive, in the warehouse asked for and not counted; it is then RESERVED with the units taken, and what is left over is one new AVAILABLE row |
| MovementEffects.PickIs | backend/src/inventory/inventory-orchestration.service.ts:120-151 | Picking is accepted if and only if the row is RESERVED or PICKING, and leaves it PICKED and nothing else changed |
| MovementEffects.ReleaseIs | backend/src/inventory/inventory-orchestration.service.ts:91-116 | A release is never refused: the rows named that are RESERVED, PICKING or PICKED become AVAILABLE, and no other row changes |
| MovementEffects.StatusIs | backend/src/inventory/inventory.service.ts:166-191 | A manual change is accepted if and only if the row is still in the status read, both statuses are manual, and the row, when AVAILABLE, is not counted; the row is then in the status asked for and nothing else changes |
| MovementEffects.RelocateIs | backend/src/inventory/inventory.service.ts:285-317 | A row is moved if and only if it is there, not counted, and neither being handled, shipped nor gone; only its warehouse changes |
| MovementEffects.ApproveAdjustmentIs | backend/src/adjustment/adjustment.service.ts:59-98 | An adjustment read as pending is completed if and only if it still is pending, the approver is not its requester, and its row, if it has one, is there, not counted, on hand and holds what was written down; the row then holds the new quantity and nothing else changes |
| IssueEffects.IssueIs | backend/src/inventory/inventory-orchestration.service.ts:158-195 | Goods issue of any items is accepted if and only if those that name a row name different ones, each PICKED or RESERVED. Each row named is then SHIPPED, holding the units issued when 0 < units < its quantity and it has no serial and else all it held; the rest of each row cut is one new AVAILABLE row of its product, warehouse and date, in item order; nothing else changes |
| IssueEffects.IssueCountsUnits | backend/src/inventory/inventory-orchestration.service.ts:158-195 | So the SHIPPED units grow by the units issued and the AVAILABLE units by the remainders |
| ReservationRuns.RowChanges | backend/src/common/stock-state.ts:24-43 | Over every run: a request leaves a row as it was, or is accepted and changes it in the one way its kind can, from the statuses that kind asks for |
| ReservationRuns.ReservedAgainOnlyAfterRelease | backend/src/inventory/inventory-orchestration.service.ts:69-116 | Over every run: between two accepted reservations of one row, alone or by allocation, a release names the row, finds it RESERVED, PICKING or PICKED and makes it AVAILABLE |
| ReservationRuns.ShippedRowStands | backend/src/inventory/inventory-orchestration.service.ts:153-158 | Over every run a SHIPPED row stays as it is |
| Store.WarehouseStore.TransitionStock | backend/src/common/stock-state.ts:24-43 | In place: the compare-and-set of the transition function, each failure leaving the tables alone with its own error; what that means for each movement is stated by the rows of MovementEffects |
| Store.WarehouseStore.SplitStockRow | backend/src/common/stock-state.ts:51-84 | In place: the two writes of a split are the split function, or nothing |
| Store.WarehouseStore.ReleaseReservation | backend/src/inventory/inventory-orchestration.service.ts:91-116 | The loop over the items releases each RESERVED, PICKING or PICKED row once and skips the rest |
| Store.WarehouseStore.IssueStockForShipment | backend/src/inventory/inventory-orchestration.service.ts:158-195 | In place: the loop splits and ships item by item, skips missing rows, and a refused item rolls all of it back; IssueEffects.IssueIs says what that leaves on every row |
| Store.WarehouseStore.AllocateRow | backend/src/inventory/inventory-orchestration.service.ts:71-87 | A chosen row is cut to the units taken and reserved, or nothing is written |
| Store.WarehouseStore.UpdateStatus | backend/src/inventory/inventory.service.ts:166-191 | Only moves between the manual statuses, guarded by the status that was read |
| Store.WarehouseStore.UpdateLocation | backend/src/inventory/inventory.service.ts:285-317 | Refuses counted, missing and committed rows, in that order; else writes the warehouse given, if any |
| Store.WarehouseStore.ApproveAdjustment | backend/src/adjustment/adjustment.service.ts:59-98 | Claim, lock check and guarded write happen together or not at all, with the error of the first that fails |
| Store.WarehouseStore.RejectAdjustment | backend/src/adjustment/adjustment.service.ts:100-108 | A pending adjustment is rejected once |
| LockRuns.LockHoldsIff | backend/src/cycle-count/cycle-count.service.ts:44-328 | The lock invariant (one active count per warehouse; every live line of it names an AVAILABLE row of that warehouse with the expected quantity) holds in every state of a run if and only if every recount in it found its count still active or a free warehouse and matching lines |
| LockRuns.LockHolds | backend/src/common/count-lock.ts:25-61 | So it holds over every run whose recounts read their status in the transaction that writes it |
| LockRuns.HeldRowsStand | backend/src/common/count-lock.ts:4-17 | A row held by a count is changed by no operation but the approval of that very count |
| LockRuns.StepKeepsLock | backend/src/cycle-count/cycle-count.service.ts:140-328 | Every step but a recount keeps the invariant, however stale the session it had read |
| ReopenedCount.StaleRecountReopensClosedCount | backend/src/cycle-count/cycle-count.service.ts:278-313 | A run of eight accepted requests after which two active counts of a warehouse hold one row: the recount writes the status unconditionally |
| CountLock.UniqueHolder | backend/src/common/count-lock.ts:4-17 | Under the invariant a row is held by at most one line of one session |
| CountLock.ApprovalMeetsNoConflict | backend/src/cycle-count/cycle-count.service.ts:181-200 | Under the invariant no active count has a conflict to report |
| CountLock.CreateKeepsLock | backend/src/cycle-count/cycle-count.service.ts:44-92 | Creating a count, serialised per warehouse, keeps the invariant |
| CountLock.ApproveKeepsLock | backend/src/cycle-count/cycle-count.service.ts:203-252 | Approval writes no row that another active count holds, and releases its own |
| CountLock.RecountKeepsLockIff | backend/src/cycle-count/cycle-count.service.ts:278-313 | A recount keeps the invariant if and only if the count is active, or no other count of the warehouse is and every line it does not refresh still matches the stock |
| CountLock.IssueSpares | backend/src/inventory/inventory-orchestration.service.ts:158-195 | Goods issue touches no counted row |
| CountEffects.OpenIs | backend/src/cycle-count/cycle-count.service.ts:44-92 | A count opens if and only if none of the warehouse is running; it has one blank line per AVAILABLE row of the warehouse, expecting its quantity |
| CountEffects.CountIs | backend/src/cycle-count/cycle-count.service.ts:140-162 | A line is counted if and only if the session was open or in progress as first read, the quantity is not negative, and the line is there and was not excluded as read; only that line and the step from open to in progress change |
| CountEffects.SubmitIs | backend/src/cycle-count/cycle-count.service.ts:165-178 | A submission is accepted if and only if every line of the session as read that is not excluded has a count, and the session is open or in progress as written; only its status changes, and a refusal says which of the two failed |
| CountEffects.ApproveIs | backend/src/cycle-count/cycle-count.service.ts:203-252 | An approval closes the count if and only if it was in review as read and still is, the approver counted none of its lines, and every row is AVAILABLE, in the warehouse and of the expected quantity; with a row that is not it writes nothing |
| CountEffects.FlagIs | backend/src/cycle-count/cycle-count.service.ts:253-270 | What a refused approval leaves behind: the true reason on each line whose row was not as expected, and nothing else |
| CountEffects.RecountIs | backend/src/cycle-count/cycle-count.service.ts:278-313 | A recount is accepted if and only if the count was in progress or in review as read and a line is flagged as written; flagged lines start over at the quantity of their row or leave the count, and the count is in progress |
| SubmissionRuns.ReviewedAreCountedIff | backend/src/cycle-count/cycle-count.service.ts:164-178 | In every state of a run each session in review or approved has a count on every line that is not excluded, if and only if each accepted submission found the counts it had read still on the lines |
| SubmissionRuns.CountsStandUntilRecount | backend/src/cycle-count/cycle-count.service.ts:278-313 | Over every run, only a recount of its session clears a count |
| SubmissionRuns.ReviewedAreCountedApart | backend/src/cycle-count/cycle-count.service.ts:164-178 | So while no recount falls between the read and the write of a submission, what is in review or approved is fully counted |
| QuietRuns.NoRecountIsAccepted | backend/src/cycle-count/cycle-count.service.ts:278-313 | In a run whose recounts are current no recount is ever accepted: no approval of a running count meets a conflict, whatever it had read, so nothing is flagged |
| QuietRuns.ReviewedAreCountedQuietly | backend/src/cycle-count/cycle-count.service.ts:164-178 | In such a run, however stale the submissions, each session in review or approved has a count on every line |
| StaleSubmission.StaleSubmissionClosesUncounted | backend/src/cycle-count/cycle-count.service.ts:165-178 | A run of ten accepted requests after which an approved count has a line nobody counted: a submission acted on lines it had read before a recount cleared them |
| CountApproval.ConflictsAreExact | backend/src/cycle-count/cycle-count.service.ts:181-200 | The lines reported are exactly those whose row vanished, left AVAILABLE, moved or changed quantity, each with the first reason that applies |
| CountApproval.ApprovalIsAllOrNothing | backend/src/cycle-count/cycle-count.service.ts:203-270 | Whatever happened to the stock: either every line still matches, and all variances and their adjustments are written and the session closed, or nothing is written; a session no longer in review is refused; the guarded writes never stop half-way |
| CountApproval.CountedRowEndsAtCount | backend/src/cycle-count/cycle-count.service.ts:220-229 | After approval a live counted row holds its counted quantity if and only if the stored variance of its line is not a false zero |
| CountApproval.CountRecordsTrueVarianceIff | backend/src/cycle-count/cycle-count.service.ts:140-162 | Counting a line, with the session status and the line read at different times, stores variance = counted − expected if and only if the expectation read is still the one on the line |
| CountRuns.VariancesTrueIff | backend/src/cycle-count/cycle-count.service.ts:140-162 | Every stored variance is counted − expected in every state of a run if and only if each count in it found on the line the expectation it had read |
| CountRuns.ExpectationsStand | backend/src/cycle-count/cycle-count.service.ts:278-313 | In a run whose recounts are current no expected quantity of a line ever changes: the lock keeps the rows of an active count as they were |
| CountRuns.CountsAreCurrent | backend/src/cycle-count/cycle-count.service.ts:140-162 | So in such a run every count, however stale its reads, finds the expectation it had read |
| CountRuns.ApprovedRowsEndAtCount | backend/src/cycle-count/cycle-count.service.ts:203-252 | And an approval that goes through, from any snapshot, leaves every live counted row at its count |
| CountRuns.OneRecountRecoversRuns | backend/src/cycle-count/cycle-count.service.ts:253-313 | After such a run and any change of the stock made outside it, one recount, one count by whoever counts each line, submission and approval leave every live row at its count |
| StaleCount.StaleCountHidesVariance | backend/src/cycle-count/cycle-count.service.ts:140-162 | A run of eleven accepted requests after which an approved count says 10 and its row holds 8: a recount that reopened a closed count refreshed the expectation after the count had read it |
| CountApproval.OneRecountRecovers | backend/src/cycle-count/cycle-count.service.ts:253-313 | Whatever happened to the stock: if nothing moves after the conflicts were flagged, one recount, one count of every line left, each by whoever counts it, submission and approval by somebody who counted nothing succeed; every live row then ends at its count if and only if no unflagged line held a false zero |
| CountApproval.SubmittedCountIsApproved | backend/src/cycle-count/cycle-count.service.ts:165-252 | A fully counted session without conflicts, submitted, is approved by any non-counter, and a live row ends at its count if and only if its line is no false zero |
| Store.WarehouseStore.OpenSession | backend/src/cycle-count/cycle-count.service.ts:44-92 | One line per AVAILABLE row of the warehouse, unless a count of it is active |
| Store.WarehouseStore.Count | backend/src/cycle-count/cycle-count.service.ts:140-162 | The line and the session status after one count, and each refusal, from a session read and a line read of different age |
| Store.WarehouseStore.CreateStockRow | backend/src/inventory/inventory.service.ts:121-165 | A row in a status that may be created is added at the end and its quantity enters the ledger; any other is refused |
| Store.WarehouseStore.RequestAdjustment | backend/src/adjustment/adjustment.service.ts:29-57 | A pending adjustment with its requester is added; the stock stays as it is |
| StoreRuns.Perform | backend/src/cycle-count/cycle-count.service.ts:44-328 | Any list of requests carried out by the methods above, each with the tables it read, leaves the in-place store in the last state of the run: it balances, approvers differ from requesters, and the count lock holds if the recounts were current |
| Store.WarehouseStore.SubmitForReview | backend/src/cycle-count/cycle-count.service.ts:165-178 | In place: submission from the session as read, written to the session as it is; CountEffects.SubmitIs says exactly when it is accepted |
| Store.WarehouseStore.CancelSession | backend/src/cycle-count/cycle-count.service.ts:315-328 | Only an active session is cancelled |
| Store.WarehouseStore.Conflicting | backend/src/cycle-count/cycle-count.service.ts:181-200 | The loop over the lines finds exactly the specified conflicts, in line order |
| Store.WarehouseStore.ApplyVariances | backend/src/cycle-count/cycle-count.service.ts:220-246 | The write loop stops at the first guarded write that misses, and else writes every variance and adjustment in order |
| Store.WarehouseStore.ApproveSession | backend/src/cycle-count/cycle-count.service.ts:203-252 | The transaction in place, rolled back when a write misses, is the approval function |
| Store.WarehouseStore.FlagConflicts | backend/src/cycle-count/cycle-count.service.ts:253-258 | Every conflict found is recorded on its line |
| Store.WarehouseStore.RecountConflicts | backend/src/cycle-count/cycle-count.service.ts:283-311 | The loop refreshes or excludes each flagged line, leaves the others, and puts the session back in progress |
| FifoPool.LockAvailableRow | backend/src/inventory/inventory-orchestration.service.ts:20-38 | Returns an oldest row among the AVAILABLE, positive, uncounted, unexcluded rows nobody else holds, or none exactly when there is none |
| FifoPool.Drain | backend/src/inventory/inventory-orchestration.service.ts:20-38 | Called until it finds nothing, the selection ends, visits each such row exactly once in receivedDate order and collects their units |
| FifoPool.DrainMeetsAggregateIff | backend/src/common/inventory-metrics.ts:14-23 | What a drain over all warehouses collects equals the availability aggregate if and only if no other transaction holds a row of the pool |
| EngineRuns.DecisionsAreSafe | backend/src/approval/approval.service.ts:303-357 | For any number of deciders and any staleness: approved steps come first, by pairwise different people none of whom is the requester; APPROVED iff all steps are; REJECTED iff one is and no later one was decided |
| DecisionRights.DecideIs | backend/src/approval/approval.service.ts:292-357 | In every run, however stale the read: a decision is accepted if and only if it is on the first step pending as read; an internal call if the type is WithdrawalRequest; by a SUPER_ADMIN, or on a chain without a rule, or by a holder of the role of the step among their database roles or, without any, by that own role or SYSTEM_ADMIN; for an approval, by neither the requester nor an earlier approver; and step and chain are still open. It decides that step, moves on, and changes nothing else |
| DecisionRights.RefusalIs | backend/src/approval/approval.service.ts:303-335 | Any other decision is refused with the error of the first check that fails, or with a conflict |
| DecisionRights.EveryDeciderWasEntitled | backend/src/approval/approval.service.ts:292-301 | Over every run: every step ever decided was decided by an accepted decision of somebody entitled to it, whose name stands on it |
| Decisions.AcceptedDecisionIsCurrent | backend/src/approval/approval.service.ts:336-357 | A decision that gets through found the chain exactly as it had read it |
| Decisions.DecisionKeepsChain | backend/src/approval/approval.service.ts:303-357 | An accepted decision keeps the chain in order and moves the current step to the first one pending |
| Decisions.PlanIsTheFirstPending | backend/src/approval/approval.service.ts:315-335 | The step checked is the first pending one and the next step is the one after it |
| Decisions.ChainMeaning | backend/src/approval/approval.service.ts:303-357 | The invariant of the proofs, in the terms of the documentation |
| Decisions.StartedChain | backend/src/approval/approval.service.ts:181-226 | A started chain is untouched and in order; which steps it has is stated by the rows of ApprovalStarts |
| ApprovalStarts.StartIs | backend/src/approval/approval.service.ts:181-226 | A start is refused if and only if a WithdrawalRequest is started from outside its workflow. Else the chain is untouched and follows an active rule of the highest priority for its type (as many steps, each with the order and role of that rule, the current step its first), or is the one default step when there is no active rule or the best one has no steps |
| ApprovalStarts.StartFollowsBest | backend/src/approval/approval.service.ts:181-226 | When no rule is without steps, as in every run, the default chain is started if and only if the type has no active rule |
| ApprovalStarts.ChainsFollowRules | backend/src/approval/approval.service.ts:181-226 | Over every run, every chain still follows the best rule of its type as the rules stood in some earlier state, step by step, or is the default chain because the type had none then |
| EngineRuns.AtMostOneLiveChain | backend/src/approval/approval.service.ts:228-252 | However reads, starts, clean-ups and decisions interleave, a document with no call between start and clean-up has at most one live chain |
| Callers.WindowConverges | backend/src/approval/approval.service.ts:228-252 | From any state of a run in which no call on a document is between start and clean-up, and as long as nothing is decided on it (other documents and earlier chains of it may be): the chain that sorts first by (createdAt, id) is live, every new chain is answered for by a call, and the chain a call settled on sorts before all that were live at the start or created earlier than it |
| Callers.CallersAgreeIff | backend/src/approval/approval.service.ts:228-252 | When all calls on the document have finished, they agree if and only if each of them holds the chain that is first by (createdAt, id) of those live at the start or created since; that chain is live either way |
| Callers.CallersAgreeInTimeIff | backend/src/approval/approval.service.ts:228-252 | The same as a matter of timing: they agree if and only if no call settled on a chain before the one that sorts first existed |
| Callers.CallersAgree | backend/src/approval/approval.service.ts:228-252 | So if the chains of the document are created in (createdAt, id) order, every call that returned holds the first one, others still being under way or not |
| Callers.StandingChainIsJoined | backend/src/approval/approval.service.ts:228-252 | A chain that was live at the start and stays first is what every call returns |
| CallersDisagree.ClocksOutOfOrderDisagree | backend/src/approval/approval.service.ts:234-251 | A run of ten steps after which two callers have returned different chains, the first of which is cancelled: after one call had returned its chain, the other created one that sorts before it |
| ApprovalStore.ApprovalTables.ClaimDecision | backend/src/approval/approval.service.ts:336-357 | In place: checks on the chain as read, then step and instance claimed together or not at all; DecisionRights.DecideIs says exactly when and by whom |
| ApprovalStore.ApprovalTables.ReadLive | backend/src/approval/approval.service.ts:234-244 | The chain kept is the oldest live one; the extras are all the others |
| ApprovalStore.ApprovalTables.CancelExtras | backend/src/approval/approval.service.ts:245-250 | Exactly the extras that are still live are cancelled |
| ApprovalStore.ApprovalTables.EnsurePendingInstance | backend/src/approval/approval.service.ts:233-252 | Undisturbed, a call leaves exactly one live chain and returns it |
| ApprovalRules.StepsInRequestedOrder | backend/src/approval/approval.service.ts:83-129 | The saved steps are those requested, each once, sorted by the requested order and numbered 1 to n |
| ApprovalRules.ValidatedIsNumbered | backend/src/approval/approval.service.ts:64-131 | A rule that passes validation has steps numbered 1 to n |
| RuleWrites.CreateIs | backend/src/approval/approval.service.ts:64-147 | A rule is created if and only if the submission is acceptable (name, type, priority, steps, orders, roles and timeouts within the limits, each role active and able to approve) and, unless submitted inactive, its priority is free among the rules read; it is stored as submitted, its steps in the order asked for |
| RuleWrites.UpdateIs | backend/src/approval/approval.service.ts:150-164 | The same for an update, which keeps the activity it read when none is submitted but checks the priority as if it were active |
| RuleWrites.ActivateIs | backend/src/approval/approval.service.ts:166-176 | In every run a rule can be switched off, and switched on if and only if the roles of its steps still may approve and its priority is free as read: what else was validated when it was saved cannot fail again |
| RuleWrites.RulesAreWellFormed | backend/src/approval/approval.service.ts:64-147 | Over every run every rule has a name, a priority, one to ten numbered steps, roles and timeouts within the limits |
| ApprovalRules.WriteKeepsUniqueIff | backend/src/approval/approval.service.ts:109-116 | A write keeps the priorities of active rules of one type distinct if and only if its rule is inactive or its priority is free at the moment of writing |
| EngineRuns.PrioritiesUniqueIff | backend/src/approval/approval.service.ts:133-176 | Priorities of active rules stay distinct in every state of a run if and only if every write found its priority still free |
| EngineRuns.CurrentWritesAreFree | backend/src/approval/approval.service.ts:133-176 | Runs whose writes validate and store in one go keep them distinct |
| EngineRuns.ConcurrentCreatesClash | backend/src/approval/approval.service.ts:133-147 | Two creates that validated against the same table both succeed and share a priority |
| ApprovalRules.BestRuleIsBest | backend/src/approval/approval.service.ts:186-190 | The rule chosen is active, of the type, and of the highest priority, when there is one |
| ApprovalRules.WinnerIsUnique | backend/src/approval/approval.service.ts:186-190 | With distinct priorities no other rule could have been chosen |
| SerialRuns.SerialsStayUnique | backend/src/common/serial-guard.ts:28-60 | For any number of interleaved writers that store trimmed serials, and any lock hash, colliding or not, no two active rows share a real serial, as long as no status step brings a released row back |
| SerialRuns.ReactivationKeepsUniqueIff | backend/src/common/serial-guard.ts:11-16 | Bringing a released row back keeps serials unique if and only if no active row took its serial |
| SerialRuns.GuardIsExactIff | backend/src/common/serial-guard.ts:48-59 | Comparing the stored text finds exactly the taken serials if and only if active stock stores its serials trimmed |
| DirectCreate.CreateIsAcceptedIff | backend/src/inventory/inventory.service.ts:136-160 | After any run that left no writer at work: direct creation passes its text comparison and the guard if and only if no active row stores the text, as given or trimmed |
| DirectCreate.DuplicateIsAcceptedIff | backend/src/inventory/inventory.service.ts:136-160 | It gives the serial of an active row to a second one if and only if some active row holds that serial under a text that is neither the one given nor its trimmed form |
| DirectCreate.UntrimmedStoreDefeatsGuard | backend/src/inventory/inventory.service.ts:136-160 | So for every untrimmed text: created as it is and then trimmed, both rows pass both checks, and two active rows hold one serial at the end of the run |
| Deadlocks.DeadlockReachableIff | backend/src/common/serial-guard.ts:33-47 | For every lock hash and every set of serials in play: some run of writers reaches a deadlock (a ring of writers each waiting for the next) if and only if the serials cross, that is, ascending pairs of them form a ring in which each second one hashes like the next first one and the first ones hash differently |
| Deadlocks.StuckIsDeadlocked | backend/src/common/serial-guard.ts:33-47 | In a reachable state where a writer is unfinished and nobody can take a step, writers wait in a ring |
| Deadlocks.NoDeadlock | backend/src/common/serial-guard.ts:33-47 | So if the hash is injective on the serials in play, then in every reachable state with an unfinished writer some writer can take its next step |
| Deadlocks.CollidingHashesCross | backend/src/common/serial-guard.ts:45-47 | Two pairs of colliding serials are enough to cross, in spite of the sorted order |
| SerialGuard.LockListIs | backend/src/common/serial-guard.ts:33-35 | The lock list holds each real serial of the request once, trimmed, in ascending order |
| GuardEffects.RealIs | backend/src/common/serial-guard.ts:18-19 | A text stands for its trimmed form unless it is blank or n/a in any case |
| GuardEffects.BeginIs | backend/src/common/serial-guard.ts:28-44 | A request begins if and only if the rows it corrects are there and it names no serial twice; its writer has one lock to take per serial, ascending |
| GuardEffects.AcquireIs | backend/src/common/serial-guard.ts:45-47 | A writer takes its next lock if and only if no other writer holds one of the same hash |
| GuardEffects.GuardIs | backend/src/common/serial-guard.ts:48-59 | In every run a writer passes the check if and only if it holds all its locks and no row outside those it corrects, other than consumed, shipped, closed or cancelled ones, stores the very text of a serial it names; what it then commits are its texts on the rows it corrects and its new rows, and nothing else |
| SerialRuns.GatherLocks | backend/src/common/serial-guard.ts:33-36 | The loop over the request builds that list |
| SerialRuns.AdvisoryLocks.LockAll | backend/src/common/serial-guard.ts:45-47 | The locks are taken in list order, up to the first one held elsewhere |
| ProductDedupe.DetectProductDuplicates | backend/src/dataio/product-dedupe.ts:42-59 | The one-pass detector gives every row the verdict of the quadratic specification, with the code and label of the first of its keys that hits |
| ProductDedupe.VerdictMeans | backend/src/dataio/product-dedupe.ts:36-58 | db iff the index reports a key of the row; else file iff an earlier accepted row shares a key; else accepted |
| ProductDedupe.AcceptedIsMaximal | backend/src/dataio/product-dedupe.ts:36-58 | Accepted rows share no key with each other or the database, and every other row shares one |
| ProductDedupe.BuildDbIndex | backend/src/dataio/product-dedupe.ts:28-34 | The index leads each key to the first product that has it |
| ProductDedupe.InDbMeansSharedKey | backend/src/dataio/product-dedupe.ts:48-51 | Without empty product codes, reported means sharing a key with some product |
| ProductDedupe.ReportedIfSharedIff | backend/src/dataio/product-dedupe.ts:48-51 | Rows are reported against the database exactly when they share a key with some product, if and only if no product that is first with some key has an empty code |
| ProductDedupe.SameKeyIff | backend/src/dataio/product-dedupe.ts:20-25 | Two keys are equal if and only if brand and SKU are, or one brand and a bar begin the other brand and the rest of that one begins the SKU |
| ProductDedupe.KeyMeansBrandAndSku | backend/src/dataio/product-dedupe.ts:20-25 | For brands neither of which begins the other followed by a bar, equal keys mean equal brand and equal SKU |
| ProductDedupe.SharedKeyIff | backend/src/dataio/product-dedupe.ts:20-25 | For such brands a row and a row or product share a key if and only if their normalised brands are equal and they have a non-empty normalised SKU in common |
| ProductDedupe.BrandsConfusedIff | backend/src/dataio/product-dedupe.ts:20-25 | Some rows of two different normalised brands share a key if and only if one brand and a bar begin the other with no white space after the bar, which can be checked when a brand is created |
| ProductDedupe.LabelIsTrueIff | backend/src/dataio/product-dedupe.ts:47 | The brand and SKU reported with a duplicate are the real ones if and only if neither holds a bar |
| ProductDedupe.BarsMislabel | backend/src/dataio/product-dedupe.ts:47 | A brand with a bar whose hit reports a brand and a SKU that are not there |
| Text.NormStable | backend/src/dataio/product-dedupe.ts:18 | Normalising is stable: what is stored trimmed normalises like what was read |
| Text.TrimCuts | backend/src/dataio/product-dedupe.ts:18 | Trimming cuts white space off both ends, all of it and nothing else |
| Reimport.ReimportIsIdempotentIff | backend/src/dataio/product-dedupe.ts:42-58 | After the accepted rows are stored, detection on the same file reports every row that has a key as db, if and only if every accepted row with a key has a code (which import requires of a row) |
| Reimport.StoredKeys | backend/src/dataio/import.service.ts:343-360 | A product stored from a row has the keys of the row |
| Reimport.MissingBrandCodes | backend/src/dataio/import.service.ts:43-51 | The codes returned are new, distinct when normalised, in first spelling, and together with the existing ones all that the rows name |
| Reimport.CreateMissingBrands | backend/src/dataio/import.service.ts:330-341 | After creating them a second call returns nothing |
| IssuedUnits.IssuedUnitsOf | backend/src/common/issued-units.ts:40-69 | The result is the merge, by unit, of the first-fit placement of the picked items: each goes to the first line of its product with room, to an exhausted line only when every line of the product is, to no line only when there is none |
| IssuedUnits.MergingCollects | backend/src/common/issued-units.ts:52-69 | The units are the picked ones, once each, in first-pick order, each with the line of its first pick and the sum of its picks; the quantities add up to all that was picked |
| IssuedUnits.PlacementIsUnique | backend/src/common/issued-units.ts:54-58 | There is only one first-fit placement of a sequence of picks |
| IssuedUnits.FirstFitMeans | backend/src/common/issued-units.ts:45-58 | First fit in quantities: a pick goes to the first line of its product not yet given its positive issued quantity, to the first line of the product when all were, to no line if and only if there is none |
| IssuedUnits.PickedAre | backend/src/common/issued-units.ts:52-53 | The picks placed are the items with a unit and a positive quantity, all of them and in their order |
| IssuedUnits.LinesFillInOrder | backend/src/common/issued-units.ts:45-58 | While a line has room no later line of its product is used |
| ShippedUnits.ResolveShippedUnits | backend/src/common/shipped-unit-resolver.ts:22-52 | Each line gets its recorded unit, else the unit its place in the product queue gives it, else its link |
| ShippedUnits.QueueHolds | backend/src/common/shipped-unit-resolver.ts:22-32 | The queue of a product holds the units of all its items that have one, in their order |
| ShippedUnits.ShipsTwiceIff | backend/src/common/shipped-unit-resolver.ts:22-52 | Two lines of a product are given one unit if and only if the queue hands a unit out twice, or a line served outside the queue has recorded or is linked to a unit the queue hands out, or two such lines have the same one |
| ShippedUnits.RecordedUnitShipsAgain | backend/src/common/shipped-unit-resolver.ts:33-50 | A recorded unit stays in the queue, so the next line of the product is given it again |
| ShippedUnits.QueueServesInOrder | backend/src/common/shipped-unit-resolver.ts:33-50 | If a later line gets a unit from the queue, so did every earlier line without a recorded one |
| StuckReservation.ReleaseStrandsNothing | backend/src/inventory/inventory.service.ts:200-278 | Undisturbed: the unit is AVAILABLE and no line holds it; an open request that held it is cancelled if and only if it held no other unit; no other request changes |
| StuckReservation.CheckIs | backend/src/inventory/inventory.service.ts:200-240 | A reservation may be released if and only if the unit is RESERVED and each line that holds it has nothing issued and no shipped unit, and the latest task of its request that was not cancelled is over, unshipped and picked nothing of the unit or, when there is none, the request is no longer open |
| StuckReservation.CloseIs | backend/src/inventory/inventory.service.ts:251-266 | The closing loop in closed form: a request left without units is cancelled, its version raised once for each of its lines |
| StuckReservation.ReleaseSparesOtherUnitsIff | backend/src/inventory/inventory.service.ts:243-250 | Lines read before the transaction keep any other unit if and only if none of them was given one meanwhile |
| StuckReservation.OtherUnitIsTaken | backend/src/inventory/inventory.service.ts:243-250 | A line given another unit after it was read loses that one |
| StuckReservation.ReleaseFreesInUseIff | backend/src/inventory/inventory.service.ts:241-250 | However stale the checks, the release makes a unit available that a task under way has, if and only if the unit as it is now is reserved, being picked or picked and a task under way has it |
| StuckReservation.CheckedIsNotInUse | backend/src/inventory/inventory.service.ts:206-240 | While tasks follow the request lines, a unit that passes the checks is in use by no task under way |
| StuckReservation.UndisturbedFreesNothingInUse | backend/src/inventory/inventory.service.ts:200-250 | So an undisturbed release frees no unit in use |
| StuckReservation.PickedUnitIsFreed | backend/src/inventory/inventory-orchestration.service.ts:91-116 | And a stale one does: a unit read as stuck, then reserved again and in picking for another request, is freed |
| StuckReservation.RequestStore.CheckStuck | backend/src/inventory/inventory.service.ts:201-240 | The checks over the links accept exactly the reservations no task and no open request can still use |
| StuckReservation.RequestStore.ReleaseStuck | backend/src/inventory/inventory.service.ts:200-278 | Checks on what was read, then the writes of one transaction, or nothing |
| Locations.ResolveLocation | backend/src/common/stock-state.ts:98-123 | Accepted if and only if every named or implied place is live and none contradicts the one below it; the result fills in the rack of the slot and the warehouse of the rack |
| Locations.ResolvesIff | backend/src/common/stock-state.ts:92-123 | A request is accepted if and only if it can be completed to a path of live places, and then in one way |
| Locations.MoveIsConsistentIff | backend/src/inventory/inventory.service.ts:285-297 | A move leaves slot, rack and warehouse of a row consistent if and only if what the request leaves out below the level it sets is empty or already belongs there |
| Locations.RackIsLeftBehind | backend/src/inventory/inventory.service.ts:285-297 | A row moved to another warehouse keeps a rack of the old one |
| Locations.ClearedIsOverruledIff | backend/src/common/stock-state.ts:92-109 | A cleared rack is set again exactly when the request names a slot |
| AuditRetention.EveryEntryIsInOneTable | backend/src/audit/audit-retention.service.ts:6-18 | Over every interleaving of logging with batches of any runs: each entry ever logged is in exactly one table with its content, and archived entries were unprotected and older than the cutoff of the batch that moved them |
| AuditRetention.BatchLosesNothingIff | backend/src/audit/audit-retention.service.ts:106-114 | A batch loses no entry if and only if no moved id meets a different archived entry of that id |
| AuditRetention.LikeIff | backend/src/audit/audit-retention.service.ts:19-39 | What a protected pattern matches: its stem, in which an underscore stands for any character, and with a final percent sign any text after it |
| AuditRetention.EligibleIff | backend/src/audit/audit-retention.service.ts:19-39 | Eligible are exactly the live entries older than the cutoff whose action neither starts with one of the sixteen protected stems nor is one of the three protected names |
| AuditRetention.OwnEntryIsProtected | backend/src/audit/audit-retention.service.ts:17-29 | The entry a run writes about itself is never eligible |
| AuditRetention.AuditLog.ArchiveBatch | backend/src/audit/audit-retention.service.ts:98-116 | One transaction moves the oldest of the eligible entries that nobody else holds locked, at most 500 |
| AuditRetention.AuditLog.ArchiveBatches | backend/src/audit/audit-retention.service.ts:97-122 | Whatever is locked during each batch: only eligible entries move, as many as reported; more remaining means exactly 100000 moved, none remaining that all that is left was locked when some batch looked. With none locked: the oldest min(E, 100000) of E move, and more remain iff E >= 100000 |
| AuditRetention.AuditLog.Archive | backend/src/audit/audit-retention.service.ts:87-132 | Refused unless confirmed and configured; else a run at the cutoff of its own clock, with these guarantees, its report and its own entry |
| AuditRetention.MoreRemainsIff | backend/src/audit/audit-retention.service.ts:118-131 | The report of a run that meets no locks is true of what is left unless exactly 100000 were eligible |
| ArchiveReruns.EventsAreOneMove | backend/src/audit/audit-retention.service.ts:87-132 | Any sequence of runs, each with its own cutoff, mover and locks, and of entries logged in between, leaves the tables that one move of all their moved entries leaves of the whole log, each entry archived under the mover of its run |
| ArchiveReruns.WhatIsLeftWasLocked | backend/src/audit/audit-retention.service.ts:97-122 | After a run that says that nothing remains, every entry still eligible was locked by others when it looked |
| ArchiveReruns.RerunsAreOneMoveIff | backend/src/audit/audit-retention.service.ts:13-15 | Repeated until a run that meets no locks says that nothing remains, this equals one unbounded move at the last cutoff if and only if no run moved an entry that is not before the last cutoff |
| ArchiveReruns.RepeatedRunsMoveEverything | backend/src/audit/audit-retention.service.ts:13-15 | So it does when no run had a later cutoff than the last, the cutoffs otherwise as they come; every entry is archived under the run that moved it, and with one mover the tables are the very same |
| ArchiveReruns.LongerRetentionDiffers | backend/src/audit/audit-retention.service.ts:50-58 | A longer retention set between two runs makes the two differ |
| ArchiveReruns.RunsNeeded | backend/src/audit/audit-retention.service.ts:41-42 | Repeated only while they say that more remains, whatever is locked: one run per full 100000 entries moved and one more |
| ArchiveReruns.RunsForTheEligible | backend/src/audit/audit-retention.service.ts:41-42 | When no cutoff was later than the last and nothing was locked then: one run per full 100000 entries eligible in the end, those logged in between included, and one more |
| LogoImage.JpegSize | backend/src/company/logo-image.ts:28-50 | The nested scan loops stay in bounds, end, and find what the marker scan specifies |
| LogoImage.JpegSizeIff | backend/src/company/logo-image.ts:28-50 | A size is found if and only if the bytes are SOI, then fill bytes, stand-alone markers and complete non-frame segments only, then a frame header with that height and width |
| LogoImage.ScanDecodes | backend/src/company/logo-image.ts:30-48 | Reading back an encoded header gives its size, whatever stands before and after |
| LogoImage.FoundIsEncoded | backend/src/company/logo-image.ts:30-48 | The bytes in which a size is found are the encoding of a header |
| LogoImage.PngSizeIff | backend/src/company/logo-image.ts:21-26 | A size is found if and only if the bytes are the signature, any four length bytes, IHDR, and that width and height |
| LogoImage.AcceptedIff | backend/src/company/logo-image.ts:53-76 | A logo is accepted, as the type reported, if and only if it is a PNG or JPEG by content within the size, side and ratio limits |
| LoginLockout.Account.Login | backend/src/auth/auth.service.ts:48-71 | The record after one attempt and its outcome: locked, invalid, inactive or logged in |
| LoginLockout.RefusedIff | backend/src/auth/auth.service.ts:48-50 | An attempt is refused unseen if and only if at least five failures stand and the last is less than 15 minutes old; it then changes nothing |
| LoginLockout.LogsInIff | backend/src/auth/auth.service.ts:48-71 | Over every run an attempt logs in if and only if it is not refused, the password is right and the account is on, and then no failures stand; a wrong password adds one; a right one on an account that is off changes nothing |
| LoginLockout.FailuresAreSpaced | backend/src/auth/auth.service.ts:53-61 | From the fifth on, each failed check comes at least 15 minutes after the one before |
| LoginLockout.LockoutBound | backend/src/auth/auth.service.ts:53-71 | So n failures since the last success or reset are at most 5 + floor((t_n - t_5) / 15 min) |
| LoginLockout.RecordFollowsFailures | backend/src/auth/auth.service.ts:53-71 | Over every run the stored count and lock are those of the failures since the last clearing |
| LoginOverlap.OverlapBound | backend/src/auth/auth.service.ts:41-63 | With at most k logins under way at once, each writing what it had read plus one, at most C(k+5, 5) - 1 passwords are checked and fail within a lock time: five for one after the other, twenty for two at once |
| LoginOverlap.OverlapBoundIsReached | backend/src/auth/auth.service.ts:41-63 | And some interleaving has exactly that many: a stale write lowers the count and opens the lock again |

## Left out

- Deadlocks.DeadlockReachableIff: a deadlock is a ring of waiting writers; the database's own deadlock detection, which would abort one of them, is not modelled.
- SerialRuns.SerialsStayUnique: assumes trimmed storing and no reactivation of released rows; `GuardIsExactIff` and `ReactivationKeepsUniqueIff` say step by step when each matters.
- LoginLockout.LockoutBound: one login after the other. Overlapping logins are bounded by `LoginOverlap.OverlapBound` within one lock time and as long as none of them succeeds; windows that span several lock times are not modelled.
- IssuedUnits.IssuedUnitsOf: the fallback for requests without a task, which reads quantities from `resolveShippedUnits`, is not modelled, nor is the choice of the latest task.
- IssueEffects.IssueIs: an item may name any row of the table or none; one that names a row the same issue is yet to create, which no caller can know, is left out.
- DecisionRights.DecideIs: loading the approver (account active, roles active and not expired) is not modelled; a decision carries the principal loaded, or none when the account is not active.
- FifoPool.LockAvailableRow: row locks are a given set of rows held elsewhere; waiting and lock release are the database's.
- AuditRetention.LikeIff: backslash escapes in patterns are not modelled.
- Reimport.ReimportIsIdempotentIff: the import's other validations and the unique constraints of the product table are not modelled.
- Isolation inside a transaction: every transaction is atomic; races between two statements of one transaction at READ COMMITTED are not modelled.
- Scrap disposal, receiving inspection and transfers: they change quantities or places without an adjustment and are outside the ledger equation as modelled.
- Numbers: quantities are reals, so NaN and Infinity (rejected or unreachable in the code) do not occur; non-integer step orders and priorities are outside the types.
- Text: case folding covers A to Z only, and serials are ordered by code point.
- Rule writes (`createRule`, `updateRule`, `setRuleActive`) are functions over the rule table, not methods that replace step rows; the list of validation messages is one BadRequest.
- Count lines are kept inside their session in creation order; reference numbers, notes, timestamps and audit texts are left out.
- Warehouse scope and role checks on the endpoints, notifications, realtime events and reports.
- The fulfillment, packing, dispatch and handover services: only the stock calls they make are modelled.
- The frontend, printing, spreadsheets, tokens and password hashing: foreign libraries or single calls.
