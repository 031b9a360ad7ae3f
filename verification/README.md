# Proofs about the server and the plugin runtime

An instant-messaging server and its plugin-based web client, modelled where they keep state
that has to stay consistent. Each part states what the code promises and proves it for
every input, every run or every reachable state.

- **Organisation.** Departments are rows with parent pointers. Three walks guard the edits:
  up the chain, down a worklist, and down a recursion that has no bound of its own. Every
  edit is accepted exactly when the table it leaves is a forest of depth at most five with
  distinct sibling names and every user placed; the recursion ends because of that very
  invariant (`DepartmentForest`, `DepartmentEdits`, `Departments`).
- **Money.** Balances, escrowed transfers with four exits, and shared bills. `Books` gives
  each handler's effect on the tables as a value, `BookRuns` follows arbitrary sequences of
  handlers, `BookEffects` says who gains and who pays what in each of them, `ExpiryRaces`
  splits expiry into its two halves, and `Ledger` holds the in-place transactions, proved to
  have those effects and to keep the accounting laws. `Bills`
  covers the division of bills, `RedPackets` the division of red packets, both for claims in
  one step and for every interleaving of share reads and claims; `Sums` and `Arithmetic` hold
  the totals and products they need.
- **Plugin runtime.** `PluginContext` is the context object, `PluginStart` lets the steps of
  all starting plugins interleave, `PluginFate` computes from any state what becomes of every
  plugin, `PluginPass` adds the synchronous pass in which `start` lets every plugin ask for its
  services, `PluginLate` treats plugins registered while booting and says exactly when timing
  matters there, and `PluginBoot` connects them.
- **Moments.** The generated WHERE clause is a tree with numbered placeholders. It is
  evaluated against its bind vector and compared with the plain visibility rule
  (`MomentQuery`); cursor paging over it, server and client, is in `MomentPaging`. `Select`
  holds the facts about ordered queries that both kinds of paging use, `TextOrder` the
  order on ids.
- **Messages.** Numbering per session, retention, forward synchronisation and backward
  history (`MessageLog`), and synchronisation while the log changes (`LiveSync`).
- **Calls and groups.** One engagement per user, one room per group (`Calls`); one owner per
  group, told by two columns (`Groups`).
- **Base32.** The unpadded codec of section 6 of RFC 4648 (`Base32`).

Every handler is one atomic step, except where the split is the point: transfer expiry reads
its rows before its transaction (`ExpiryRaces`), a red packet share is read before it is
claimed (`EveryInterleavingCounts`, `StaleSharesStarve`), the call handlers drop their lock
between check and write (`InsertCallExact`, `InsertRoomExact`, `WriteBackExact`), the plugins
of a start interleave (`PluginPass`), and a plugin that is still starting can lose a service
(`LateFinishExact`). Clocks, random draws and fresh ids are parameters. A refused handler
changes nothing unless its contract says so.

Where the code does less than one might expect, this is what is proved instead:

- Two overlapping expiry runs refund a transfer twice, and can overwrite an accepted one. A
  run conserves money exactly when every commit found all its rows still pending; an accepted
  or rejected transfer stays as it is exactly when no later commit lists it.
- An equal bill is settled exactly when everybody has paid and the number of participants
  divides the total.
- A claim keeps a red packet servable exactly within the bounds of `FairClaimExact`; stale
  shares can finish one with a slot never served.
- After retention a client is given the next message exactly when its cursor is not above the
  live maximum; once a session has been emptied, old cursors miss new messages.
- After the pass of `start` the outcome does not depend on timing. If a service is provided
  but not declared, whether a plugin that injects it starts depends on registration order and
  on whether the provider provides before its first await; only a provider that injects
  nothing can be in time at all (`CanBeInTime`). A plugin registered while booting may ask at
  any time, and there timing can matter; `DeterminedExactly` says exactly when it does not.
- A call or room is inserted, or written back, safely exactly when it still has its place;
  crossed invitations put one person into two calls, and of two simultaneous joins one is lost.
- The timeline shows `partial` posts to listed viewers who are no longer friends, while the
  access check on single posts refuses them: the two differ by exactly these.
- Adding several group members stops at an unknown name but keeps those added before it.

`dafny verify dfyconfig.toml` checks the whole project.

## Model

| member | source | states |
|---|---|---|
| `DepartmentForest.ChainDepth` | apps/server/src/plugins/org.rs:14-28 | the upward walk ends after at most 33 rows on any table, cyclic or not; on a row of depth up to 32 it returns that depth, and 0 for no or an unknown department |
| `DepartmentForest.DescendantsOf` | apps/server/src/plugins/org.rs:30-43 | the worklist ends on any table, cyclic or not, and collects exactly the rows reached by one or more parent-to-child links |
| `DepartmentForest.Walk` | apps/server/src/plugins/org.rs:45-60 | the unbounded recursion ends on a forest, because a chain cannot get longer than the maximal depth, and raises the height to the deepest level it meets, never further |
| `DepartmentForest.SubtreeHeight` | apps/server/src/plugins/org.rs:45-60 | on a forest: the exact number of levels of the subtree |
| `DepartmentForest.ForestAcyclic` | apps/server/src/plugins/org.rs:240-258 | no department of a valid table is its own descendant |
| `DepartmentForest.ForestShallow` | apps/server/src/plugins/org.rs:12-28 | in a valid table everything below a department exists, has its parent, and is fewer than five links away |
| `DepartmentForest.SubtreeDepth` | apps/server/src/plugins/org.rs:45-60 | a row of depth `d` has at most `5 - d` levels below it |
| `DepartmentForest.DepthBelow` | apps/server/src/plugins/org.rs:14-60 | depth adds up along a chain of links |
| `DepartmentEdits.CreateForestExact` | apps/server/src/plugins/org.rs:160-172 | appending a row leaves a forest if and only if the key is new and the parent is none or exists above the depth limit |
| `DepartmentEdits.CreateExact` | apps/server/src/plugins/org.rs:148-196 | the same for the whole table invariant (forest, distinct sibling names, no empty name, users placed): four conditions, necessary and sufficient |
| `DepartmentEdits.RenameExact` | apps/server/src/plugins/org.rs:198-227 | renaming keeps the invariant if and only if the name is not empty and free among the siblings |
| `DepartmentEdits.MoveForestExact` | apps/server/src/plugins/org.rs:229-270 | re-parenting leaves a forest if and only if the new parent exists, is neither the row nor one of its descendants, and its depth plus the height of the moved subtree is at most five |
| `DepartmentEdits.MoveExact` | apps/server/src/plugins/org.rs:229-285 | the same for the whole table invariant, with the name free among the new siblings |
| `DepartmentEdits.MoveKeepsForest` | apps/server/src/plugins/org.rs:246-270 | sufficiency: every row, inside and outside the moved subtree, ends at depth five or less |
| `DepartmentEdits.ForestMoveFits` | apps/server/src/plugins/org.rs:246-270 | necessity: a table that is still a forest afterwards passed the depth guard |
| `DepartmentEdits.ForestMoveOpen` | apps/server/src/plugins/org.rs:240-255 | necessity: a table that is still a forest afterwards had no cycle to close |
| `DepartmentEdits.DeleteExact` | apps/server/src/plugins/org.rs:287-316 | removing a row keeps the invariant if and only if it has no child rows and no users |
| `DepartmentEdits.LeafDeleteKeepsForest` | apps/server/src/plugins/org.rs:287-316 | removing a leaf keeps every chain |
| `DepartmentEdits.ParentDeleteBreaksForest` | apps/server/src/plugins/org.rs:297-303 | removing a parent never leaves a forest |
| `DepartmentEdits.SiblingsAfterUpdate` | apps/server/src/plugins/org.rs:262-267 | changing one row keeps sibling names distinct if and only if its new place and name are free |
| `Departments.Organisation.Create` | apps/server/src/plugins/org.rs:148-196 | accepted if and only if the extended table satisfies the invariant; one row is appended or nothing changes; what the refusals mean |
| `Departments.Organisation.Rename` | apps/server/src/plugins/org.rs:198-227 | accepted if and only if the department exists and the renamed table satisfies the invariant; only the name of that row changes; what the refusals mean |
| `Departments.Organisation.Move` | apps/server/src/plugins/org.rs:229-285 | accepted if and only if the department exists and the re-parented table satisfies the invariant: the three walks used as guards decide exactly that; only the parent of that row changes; what the refusals mean |
| `Departments.Organisation.Delete` | apps/server/src/plugins/org.rs:287-316 | accepted if and only if the department exists and the remaining table satisfies the invariant; exactly that row goes |
| `Departments.Organisation.AddUser` | apps/server/src/plugins/admin.rs:118-172 | a new account keeps the invariant; refused for a taken id or an unknown department |
| `Departments.Organisation.Assign` | apps/server/src/plugins/org.rs:318-373 | moves exactly one user, into an existing department or out of all |
| `Departments.Organisation.SetBanned` | apps/server/src/plugins/admin.rs:37-63 | sets one flag; refused for oneself and for unknown users |
| `Departments.Organisation.CreateGroup` | apps/server/src/plugins/org.rs:375-420 | the new group holds the caller and exactly the unbanned users of the subtree, and the department remembers it, so that a second call answers the same group; no other row or column changes |
| `Departments.Organisation.SyncGroup` | apps/server/src/plugins/org.rs:422-471 | nobody is removed, every unbanned user of the subtree is in, and the answer is the exact number of newcomers |
| `Departments.Enlist` | apps/server/src/plugins/org.rs:384-407 | the member loop of a new department group |
| `Departments.Recruit` | apps/server/src/plugins/org.rs:437-470 | the member loop of a synchronisation, with its counter |
| `Departments.StaffMeaning` | apps/server/src/plugins/org.rs:422-471 | who a department group is for: unbanned users placed in the department or below it |
| `Departments.FitsByMeasure` | apps/server/src/plugins/org.rs:256-266 | the comparison of measured depth and height is the exact depth condition of a move |
| `Bills.NeverOvercollects` | apps/server/src/store.rs:4052-4119 | a bill never collects more than its total, and a settled one has collected exactly that |
| `Bills.CustomSettledExactly` | apps/server/src/store.rs:4095-4117 | a custom bill is settled if and only if every participant has paid |
| `Bills.EqualSettledExactly` | apps/server/src/store.rs:4029-4041 | an equal bill with everybody in has collected total minus total mod n; it is settled if and only if everybody has paid and n divides the total |
| `Bills.EqualCollected` | apps/server/src/store.rs:4029-4041 | what an equal bill has collected is the common share times the number of payers |
| `Bills.PaidSound` | apps/server/src/store.rs:4095-4117 | one payment keeps the bill laws: the running total is the sum of the payments, and each payment is the payer's share |
| `Books.MoveMoneySound` | apps/server/src/store.rs:3528-3655 | opening a transfer (escrow) and closing it (one credit) keep all accounting laws |
| `Books.TopUpSound` | apps/server/src/plugins/funds.rs:312-326 | a top-up keeps the laws |
| `Books.EscrowSound` | apps/server/src/store.rs:3528-3579 | taking the amount into escrow keeps the laws |
| `Books.SendSound` | apps/server/src/plugins/funds.rs:328-417 | sending keeps the laws, refusals and failed delivery included |
| `Books.SendRefusedKeepsBalances` | apps/server/src/plugins/funds.rs:328-417 | a refused or undelivered transfer leaves every balance as it was |
| `Books.SettleSound` | apps/server/src/store.rs:3596-3629 | accepting and rejecting keep the laws |
| `Books.CancelRefundSound` | apps/server/src/store.rs:3631-3655 | the refund of an undelivered transfer keeps the laws and always succeeds on a pending row |
| `Books.RefundSound` | apps/server/src/store.rs:3657-3683 | refunding any set of pending rows keeps the laws |
| `Books.RefundWorth` | apps/server/src/store.rs:3666-3682 | on any list of rows, pending or not, the commit half of expiry adds exactly the amounts of the rows that were no longer pending |
| `Books.StaleRefundExact` | apps/server/src/store.rs:3657-3683 | the rows are read before the transaction begins: the commit conserves money if and only if every row read is still pending |
| `Books.DoubleRefund` | apps/server/src/store.rs:3657-3683 | two expiry runs that read before either commits create the amount of the row a second time |
| `Books.PayBillSound` | apps/server/src/store.rs:4052-4119 | paying a bill keeps the laws |
| `Books.PayBillWorth` | apps/server/src/store.rs:4084-4092 | a payment takes from the payer exactly what it gives the creator |
| `Books.PutBillSound` | apps/server/src/plugins/funds.rs:796-952 | storing a bill that moves no money keeps the laws |
| `Books.CancelBillSound` | apps/server/src/plugins/funds.rs:1098-1121 | cancelling a bill keeps the laws |
| `BookEffects.AnswerMeaning` | apps/server/src/plugins/funds.rs:441-498 | accepting pays the receiver and leaves the row accepted, rejecting pays the sender and leaves it rejected, each exactly the amount; nobody else's balance and no other row changes; every other reply has its exact cause |
| `BookEffects.AnswerInTime` | apps/server/src/plugins/funds.rs:441-498 | under the laws an answer by the receiver before the deadline always goes through, a rejection without further condition, an acceptance if and only if the receiver has a wallet |
| `BookEffects.SettleMeaning` | apps/server/src/store.rs:3596-3629 | the same for the transaction on its own |
| `BookEffects.ExpireMeaning` | apps/server/src/store.rs:3657-3683 | exactly the pending rows whose time has come are refunded, and every user gets back exactly the sum of the amounts of the own ones |
| `BookEffects.CommitMeaning` | apps/server/src/store.rs:3666-3682 | the commit half on any list of rows: each listed row becomes refunded and its sender, nobody else, gets the amount, closed in between or not |
| `BookEffects.SendMeaning` | apps/server/src/plugins/funds.rs:328-417 | the sender pays exactly the amount, which waits for a day; an undelivered transfer leaves nothing but a refunded row; a refused one leaves everything as it was |
| `BookEffects.SendReplies` | apps/server/src/plugins/funds.rs:328-417 | who may send how much to whom: the first of seven reasons that applies |
| `BookEffects.EscrowMeaning` | apps/server/src/store.rs:3528-3579 | the amount leaves the sender and a pending row appears, if and only if the id is new and the sender can pay |
| `BookEffects.CancelRefundMeaning` | apps/server/src/store.rs:3631-3655 | a pending row goes back to its sender in full and is closed as refunded |
| `BookEffects.TopUpMeaning` | apps/server/src/plugins/funds.rs:312-326 | a top-up within the bounds reaches exactly one existing balance |
| `BookEffects.ShareMeaning` | apps/server/src/store.rs:4029-4041 | what a participant owes: the own part of a custom split, otherwise an equal part with fractions dropped; always positive, never the creator |
| `BookEffects.PayAccepted` | apps/server/src/store.rs:4052-4119 | a payment goes through if and only if the bill is open, the payer takes part, has not paid, offers the own share or nothing in particular, and can afford it; every refusal has its exact cause |
| `BookEffects.PayMeaning` | apps/server/src/store.rs:4052-4119 | the share moves from the payer to the creator and is recorded, and the bill is settled if and only if that completes it |
| `BookEffects.CancelMeaning` | apps/server/src/plugins/funds.rs:1098-1121 | only the creator, only an open bill, and nothing is paid back |
| `BookEffects.OpenMeaning` | apps/server/src/plugins/funds.rs:796-952 | a bill is stored as it is under a new id |
| `BookRuns.EveryRunBalances` | apps/server/src/store.rs:3454-3683 | from a fresh installation, after any sequence of top-ups, transfers, answers, expiries, bills, payments and cancellations: no balance is negative, every balance is what the rows say, and balances plus escrow equal the accepted top-ups |
| `BookRuns.RunConserves` | apps/server/src/store.rs:3454-3683 | the same from any state that obeys the laws |
| `BookRuns.ApplySound` | apps/server/src/plugins/funds.rs:312-526 | each of the seven handlers keeps the laws |
| `BookRuns.RunEvolves` | apps/server/src/store.rs:3596-3683 | over any run no transfer row disappears or is rewritten, and a row that has left `pending` never changes again |
| `BookRuns.ApplyEvolves` | apps/server/src/store.rs:3596-3683 | the same for one handler |
| `BookRuns.ClosedOnce` | apps/server/src/store.rs:3596-3683 | over every run at most one step closes a given transfer, the row that step leaves is the row at the end, and in that step every balance changes by exactly what the rows closed there owe the user: each its amount, to one party |
| `BookRuns.ExitCredits` | apps/server/src/store.rs:3596-3683 | only answers and expiry close transfers, and they change every balance by exactly what the rows they close owe the user |
| `BookRuns.ClosedBySomeStep` | apps/server/src/store.rs:3596-3683 | a pending transfer is closed at the end of a run if and only if some step of the run closed it |
| `BookRuns.FreshSound` | apps/server/src/store.rs:3454-3477 | a fresh installation obeys the laws |
| `ExpiryRaces.RacedWorth` | apps/server/src/store.rs:3657-3683 | over every run in which expiry reads and commits at different times, with anything in between: balances plus escrow grow by the accepted top-ups and by the amounts of committed rows that were no longer pending |
| `ExpiryRaces.RacedConservesExactly` | apps/server/src/store.rs:3657-3683 | such a run conserves money if and only if every commit found all its rows still pending |
| `ExpiryRaces.NothingBetween` | apps/server/src/store.rs:3657-3683 | with nothing between its halves expiry is the one-step expiry, and a handler on its own is that handler |
| `ExpiryRaces.FinalOneMore` | apps/server/src/store.rs:3657-3683 | what each event of such a run does, after any run |
| `ExpiryRaces.OverlapConservesExactly` | apps/server/src/store.rs:3657-3683 | two expiries that both read before either commits conserve money if and only if nothing was due |
| `ExpiryRaces.ClosedRowExactly` | apps/server/src/store.rs:3666-3682 | an accepted or rejected transfer stays as it is if and only if no later commit lists it; one that is listed is overwritten with `refunded` |
| `ExpiryRaces.HandlerWorth` | apps/server/src/plugins/funds.rs:312-526 | each handler changes the money in the system by what it pays in, even after stale commits |
| `Ledger.Store.TopUp` | apps/server/src/plugins/funds.rs:312-326 | exactly the effect and reply of `Books.TopUp`; the accounting laws are kept |
| `Ledger.Store.TransferCreate` | apps/server/src/store.rs:3528-3579 | the transaction has exactly the effect and reply of `Books.Escrow`; an error leaves the tables as they were |
| `Ledger.Store.TransferCancelRefund` | apps/server/src/store.rs:3631-3655 | exactly `Books.CancelRefund` |
| `Ledger.Store.TransferSend` | apps/server/src/plugins/funds.rs:328-417 | exactly `Books.Send`; the accounting laws are kept |
| `Ledger.Store.TransferSettle` | apps/server/src/store.rs:3596-3629 | exactly `Books.Settle`, whose effect is `BookEffects.SettleMeaning`; the accounting laws are kept |
| `Ledger.Store.ExpireRead` | apps/server/src/store.rs:3658-3665 | exactly the pending rows whose time has come |
| `Ledger.Store.ExpireCommit` | apps/server/src/store.rs:3666-3682 | the row-by-row loop has the effect of `Books.RefundRows` on whatever was read, stale rows included |
| `Ledger.Store.TransferExpire` | apps/server/src/plugins/funds.rs:513-526 | read and commit without anything in between |
| `Ledger.Store.TransferAnswer` | apps/server/src/plugins/funds.rs:441-498 | accept and reject: a late answer expires everything due instead; who is paid is `BookEffects.AnswerMeaning` |
| `Ledger.CollectCandidates` | apps/server/src/plugins/funds.rs:842-860 | the two loops that settle who takes part compute the candidates |
| `Ledger.CollectSplits` | apps/server/src/plugins/funds.rs:872-891 | the split loop accepts if and only if every candidate has a positive share and the shares add up to the total, and returns the candidates' shares |
| `Ledger.Store.BillCreate` | apps/server/src/plugins/funds.rs:796-952 | accepted if and only if amount, participants and split pass their checks; the stored bill, field by field |
| `Ledger.Store.BillPay` | apps/server/src/store.rs:4052-4119 | exactly `Books.PayBill`; the accounting laws are kept |
| `Ledger.Store.BillCancel` | apps/server/src/plugins/funds.rs:1098-1121 | exactly `Books.CancelBill`; the accounting laws are kept |
| `Ledger.RequestedClean` | apps/server/src/plugins/funds.rs:842-851 | requested participants: each once, never the creator, nobody else dropped |
| `Ledger.CandidatesClean` | apps/server/src/plugins/funds.rs:842-860 | the requested participants if there is one besides the creator, else the other members; distinct, never the creator |
| `Ledger.RequestedInOrder` | apps/server/src/plugins/funds.rs:842-851 | requested participants come in the order of their first mention |
| `Ledger.OthersInOrder` | apps/server/src/plugins/funds.rs:852-860 | the other members come in the order of the member list |
| `Ledger.CreatedBillIsNew` | apps/server/src/plugins/funds.rs:842-908 | the checks of creation establish the laws a bill keeps for life |
| `RedPackets.LuckyBounds` | apps/server/src/plugins/funds.rs:37-47 | a lucky share is at least 1 and leaves at least 1 for every other slot, whatever the draw |
| `RedPackets.LuckyReach` | apps/server/src/plugins/funds.rs:37-47 | a lucky share takes every value from 1 up to the even part of what is not reserved, each exactly once in that many consecutive draws |
| `RedPackets.EvenShort` | apps/server/src/plugins/funds.rs:32-35 | at the last slot, or with less than a cent per slot, a normal share is all that is left |
| `RedPackets.TowardsZero` | apps/server/src/plugins/funds.rs:32-47 | the division of both shares drops the fraction on either side of zero |
| `RedPackets.EvenBounds` | apps/server/src/plugins/funds.rs:32-35 | an even share of what is left is the common part plus the remainder |
| `RedPackets.EvenRest` | apps/server/src/plugins/funds.rs:32-35 | once the remainder is gone, every even share is the common part |
| `RedPackets.ShareBounds` | apps/server/src/plugins/funds.rs:32-47 | both kinds: at least 1, at least 1 left for each other slot, everything for the last |
| `RedPackets.EveryInterleavingCounts` | apps/server/src/store.rs:3822-3880 | under any interleaving of share reads, claims and expiries, however stale the shares: remaining plus recorded amounts is the total, open plus taken slots is the count, neither counter is negative, nobody is recorded twice |
| `RedPackets.PlayOneMore` | apps/server/src/store.rs:3822-3902 | what each event of such a run does, after any run |
| `RedPackets.ClaimCounted` | apps/server/src/store.rs:3822-3880 | one claim with any positive amount keeps that bookkeeping |
| `RedPackets.ClaimMeaning` | apps/server/src/store.rs:3822-3880 | who is granted a share of a given size, what exactly the packet loses, and when it is finished |
| `RedPackets.VisitMeaning` | apps/server/src/plugins/funds.rs:633-712 | what a claimer is told, in the order of the checks, and what becomes of the packet |
| `RedPackets.FairClaimExact` | apps/server/src/store.rs:3822-3880 | exactly which amounts keep the packet servable; the transaction itself only checks `amount <= remaining` |
| `RedPackets.AtomicClaimFair` | apps/server/src/plugins/funds.rs:633-712 | a share read and claimed in one step is always granted to an eligible claimer, and the packet is finished if and only if both counters are zero |
| `RedPackets.AtomicClaimEven` | apps/server/src/plugins/funds.rs:633-712 | a normal packet pays total/count to everybody and the remainder to the first claimer as well |
| `RedPackets.EveryVisitFair` | apps/server/src/plugins/funds.rs:633-712 | both laws over any run of one-step claims |
| `RedPackets.VisitOneMore` | apps/server/src/plugins/funds.rs:633-712 | each visit of such a run is one claim in one step |
| `RedPackets.StaleSharesStarve` | apps/server/src/plugins/funds.rs:662-682 | the single step is needed: two claimers who read the same untouched packet can finish it with a slot never served |
| `RedPackets.CreatedFair` | apps/server/src/plugins/funds.rs:528-631 | a created packet obeys both laws |
| `RedPackets.PacketStore.Open` | apps/server/src/store.rs:3740-3769 | accepted if and only if the bounds on count and total hold and the id is new; the stored packet, field by field |
| `RedPackets.PacketStore.PacketClaim` | apps/server/src/store.rs:3822-3880 | the claim transaction is exactly `RedPackets.Claim` |
| `RedPackets.PacketStore.ExpireIfNeeded` | apps/server/src/store.rs:3882-3902 | closes exactly the active packets that have run out of time |
| `RedPackets.PacketStore.ClaimShare` | apps/server/src/plugins/funds.rs:633-712 | the whole handler in one step: exact reply and row, every packet stays fair, other packets change only by expiry |
| `PluginRegistry.OperationsLoseNoWait` | packages/core/src/index.ts:83-120 | after `provide`, `markUnavailable` and `waitFor` no wait is pending on a name that is provided or unavailable |
| `PluginRegistry.OperationsMeaning` | packages/core/src/index.ts:83-120 | providing and giving up change one name and settle exactly the waits on it, one way each; a new wait is answered at once if the answer is known, a provided service before a given-up one, and changes no other wait |
| `PluginRegistry.GaveUpMeaning` | packages/core/src/index.ts:287-293 | giving services up answers exactly the pending waits on them and leaves every other wait and answer as it was |
| `PluginRegistry.ProvideEffect` | packages/core/src/index.ts:83-97 | providing answers exactly the pending waits on that name, positively |
| `PluginRegistry.MarkAllEffect` | packages/core/src/index.ts:287-293 | giving names up answers exactly the pending waits on them, negatively |
| `PluginRegistry.WaitForAllEffect` | packages/core/src/index.ts:261-272 | a starting plugin gets, for each injected service, the answer known at that moment |
| `PluginRegistry.WithdrawGivesUp` | packages/core/src/index.ts:178-185 | withdrawing a service and marking it unavailable answers only the waits on it |
| `PluginContext.CollectDependents` | packages/core/src/index.ts:295-314 | the grow-until-stable loop ends and returns exactly the plugins reachable through provides-to-inject links, never the root |
| `PluginContext.LinkMeaning` | packages/core/src/index.ts:295-314 | one link is: somebody injects a service the other one declares |
| `PluginContext.TakenDownExactly` | packages/core/src/index.ts:295-314 | a plugin other than the root is taken down if and only if it injects something a plugin taken down declares |
| `PluginContext.CollectRound` | packages/core/src/index.ts:301-312 | one round only adds dependents, and a round that adds nobody proves the set closed |
| `PluginContext.ClosedHoldsAll` | packages/core/src/index.ts:295-314 | a set closed under one more link holds every plugin any number of links away |
| `PluginContext.SwitchFed` | packages/core/src/index.ts:166-189 | disabling a closed set leaves every started plugin with all it injects |
| `PluginContext.LateFinishExact` | packages/core/src/index.ts:261-285 | a start that completes later marks the plugin started without a second look: right if and only if its services are still there |
| `PluginContext.StartMeaning` | packages/core/src/index.ts:261-285 | when a start succeeds, fails or waits, and which services are there and which are given up afterwards |
| `PluginContext.Context.Provide` | packages/core/src/index.ts:83-97 | exact effect on services, unavailable names and waits; the invariant (no lost wait, unique names, started plugins have what they inject) is kept |
| `PluginContext.Context.WaitFor` | packages/core/src/index.ts:109-120 | exact effect; the invariant is kept |
| `PluginContext.Context.MarkUnavailable` | packages/core/src/index.ts:287-293 | exact effect; no wait is lost |
| `PluginContext.Context.Register` | packages/core/src/index.ts:137-148 | replaces a plugin of the same name, honours the disabled list, and starts the newcomer while booting |
| `PluginContext.Context.Await` | packages/core/src/index.ts:261-272 | how the waits of a starting plugin come out: one lost, all there, or unanswered |
| `PluginContext.Context.StartEntry` | packages/core/src/index.ts:261-285 | exact resulting state and registry of one start, for every outcome of `apply` |
| `PluginContext.Context.Fail` | packages/core/src/index.ts:276-282 | the catch branch: failed, and everything declared is given up |
| `PluginContext.Context.Disable` | packages/core/src/index.ts:166-189 | true if and only if the plugin is known and neither disabled nor stopped; then it and exactly its dependents are disabled, everybody else keeps the state, exactly their services are withdrawn and given up, and only waits on those are answered |
| `PluginContext.Context.SwitchOff` | packages/core/src/index.ts:175-187 | the backwards loop of disabling |
| `PluginContext.Context.Enable` | packages/core/src/index.ts:191-210 | acts if and only if the plugin is off or failed and all it injects is there; exact result, booting or not |
| `PluginContext.Context.PrepareStart` | packages/core/src/index.ts:212-227 | after the marking loops the names given up are exactly those declared by disabled plugins and those injected but neither provided nor declared |
| `PluginContext.Context.MarkDisabled` | packages/core/src/index.ts:214-222 | the first marking loop |
| `PluginContext.Context.MarkUndeclared` | packages/core/src/index.ts:223-227 | the second marking loop |
| `PluginContext.Context.StartPass` | packages/core/src/index.ts:228-271 | the synchronous loop over all plugins: every enabled one asks in turn, and one that injects nothing provides what it provides before its first await; exact registry, invariant kept |
| `PluginContext.Context.Stop` | packages/core/src/index.ts:231-241 | exactly the started plugins become stopped; services stay |
| `PluginStart.EveryRunEnds` | packages/core/src/index.ts:228-285 | no interleaving is longer than a budget read off the first state |
| `PluginStart.StepReached` | packages/core/src/index.ts:261-293 | every step keeps the invariant that explains services, unavailable names, waits and phases, with services provided that nobody declared |
| `PluginStart.RunReached` | packages/core/src/index.ts:261-293 | the same over any run |
| `PluginStart.ReachedSteady` | packages/core/src/index.ts:261-293 | every state of a start explains itself and can serve as the base of the results below |
| `PluginLate.FatesExactly` | packages/core/src/index.ts:137-148 | from any state of a start, with plugins still to be registered while booting (line 146): every complete continuation gives every plugin the fate computed from that state (up, failed, refused or waiting) if and only if every plugin that has not begun yet and injects a given-up service somebody supplies later on is doomed anyway |
| `PluginLate.DeterminedExactly` | packages/core/src/index.ts:137-148 | under the same condition, and only then, every two complete continuations end with the same phases, services and unavailable names; a plugin registered while booting may ask at any time |
| `PluginLate.StartsExactly` | packages/core/src/index.ts:137-148 | every complete continuation starts exactly the least set closed under "not turned away and all injected services supplied" if and only if nobody in it that has still to be registered injects a service given up and not provided |
| `PluginFate.StartableLeast` | packages/core/src/index.ts:261-275 | that set is the least closed one, and each of its plugins is running or admitted by the others |
| `PluginFate.DoomedLeast` | packages/core/src/index.ts:276-293 | the doomed are the least set closed under refusal, and none of them can start |
| `PluginLate.UndisputedUnhindered` | packages/core/src/index.ts:137-148 | the condition for a determined outcome implies the one for starting everybody who can |
| `PluginFate.OnlyStartableRun` | packages/core/src/index.ts:261-275 | no run, complete or not, starts anybody outside the least closed set, and nothing goes backwards |
| `PluginFate.LaterStep` | packages/core/src/index.ts:261-293 | one step takes no plugin back, and an answer that turned a plugin away stands |
| `PluginFate.StartableRan` | packages/core/src/index.ts:261-275 | when nobody who is fed can move, whoever can start has run unless a refusal hit one of them |
| `PluginFate.TerminalDoomed` | packages/core/src/index.ts:276-293 | with no step left, the doomed are refused, in whatever order the steps came |
| `PluginFate.DeadInjector` | packages/core/src/index.ts:261-293 | an invariant set of plugins encloses every refusal a run can produce |
| `PluginLate.FatesReachable` | packages/core/src/index.ts:137-148 | some complete continuation gives every plugin its fate: the one in which plugins are registered only when their services are there |
| `PluginLate.EarlyRefusal` | packages/core/src/index.ts:137-148 | registered next, a plugin that injects a given-up service is refused for good |
| `PluginFate.CanComplete` | packages/core/src/index.ts:228-285 | every state can be run on until no step is left |
| `PluginBoot.NobodyLeftWaiting` | packages/core/src/index.ts:228-285 | on an acyclic graph no plugin is left waiting, undeclared services or not |
| `PluginPass.OneOutcome` | packages/core/src/index.ts:228-285 | once every plugin has asked for its services, timing does not matter at all: every two complete continuations leave the same state, waits included, and every plugin has the fate computed before |
| `PluginPass.PassDecides` | packages/core/src/index.ts:228-271 | after the synchronous pass of `start`, in any registration order and with any early provisions, that is the case |
| `PluginPass.PassRun` | packages/core/src/index.ts:228-271 | the pass is a run, every plugin in the order has asked in it, and nothing went backwards |
| `PluginPass.AskedTooEarly` | packages/core/src/index.ts:109-120 | a plugin that asks is turned away if and only if one of its services is given up and not there |
| `PluginPass.TurnedAwayFate` | packages/core/src/index.ts:261-285 | whoever is turned away is refused in the end |
| `PluginPass.AlwaysTooEarly` | packages/core/src/index.ts:228-271 | a plugin that injects a given-up service which no plugin without injections provides is turned away in every registration order |
| `PluginPass.CanBeInTime` | packages/core/src/index.ts:228-271 | some registration order and early provision spare a plugin if and only if every given-up service it injects is provided by a plugin that injects nothing |
| `PluginPass.FirstIsTooEarly` | packages/core/src/index.ts:228-271 | registered first, a plugin that injects a given-up service is turned away |
| `PluginPass.TooEarlyRefused` | packages/core/src/index.ts:228-285 | a plugin turned away in the pass is refused, whatever the timing afterwards |
| `PluginPass.FedFate` | packages/core/src/index.ts:261-285 | a plugin that only waits for what is there will run |
| `PluginPass.OrderDecides` | packages/core/src/index.ts:212-228 | two plugins, one service provided but not declared: the other one starts if the provider is registered first and provides before its first await, and is refused if the provider is slow or registered later |
| `PluginBoot.StartIsDetermined` | packages/core/src/index.ts:212-229 | the start of any set of plugins none of which declares what another one provides: after the pass in registration order every complete interleaving leaves one and the same state, and every enabled plugin has the fate computed then |
| `PluginBoot.OrderIsFree` | packages/core/src/index.ts:212-229 | when services that are provided and injected are also declared by their provider, registration order and early provision do not matter either |
| `PluginBoot.StartDecidesAll` | packages/core/src/index.ts:212-229 | with an acyclic graph, every complete interleaving leaves every enabled plugin started or failed |
| `PluginBoot.PassOverIsPass` | packages/core/src/index.ts:228-271 | the pass the context performs over its entries is a pass of the interleaved start: same registry |
| `PluginBoot.AtomicStartIsRun` | packages/core/src/index.ts:261-285 | the one-piece start of the context is one of the interleavings, services provided repeatedly included: same registry, corresponding phase |
| `PluginBoot.PreparedIsSane` | packages/core/src/index.ts:212-227 | what the marking loops leave satisfies the conditions of the interleaving theorems |
| `PluginBoot.AnnouncedIsUndisputed` | packages/core/src/index.ts:212-227 | with declared services no given-up service is both injected and provided during the start |
| `PluginBoot.PreparedIsAcyclic` | packages/core/src/index.ts:212-227 | a rank on the enabled plugins is a rank for the interleaving theorems |
| `PluginBoot.DisputedIsPrepared` | packages/core/src/index.ts:212-227 | the start of the two plugins above is one that the marking loops prepare |
| `Select.ContinueAfter` | apps/server/src/store.rs:3045-3063 | keyset paging: asking for the rows behind row k of an answer gives the rest of the answer |
| `Select.SortedUnique` | apps/server/src/store.rs:3188-3197 | the answer of an ordered query is determined by its set of rows |
| `MomentQuery.VisibleClause` | apps/server/src/store.rs:3009-3043 | in both shapes, with any number of friends: every placeholder of the generated clause is in range of the bind vector, and on every row the clause is the plain visibility rule |
| `MomentQuery.CursorClause` | apps/server/src/store.rs:3045-3063 | the cursor clause means "strictly older, ties by id"; an id without a time is ignored |
| `MomentQuery.TimelineQuery` | apps/server/src/store.rs:3179-3203 | the whole generated query means the plain predicate, and its limit placeholder is bound to the limit |
| `MomentQuery.WantedMeaning` | apps/server/src/store.rs:3009-3063 | the plain predicate, audience by audience, with author and cursor |
| `MomentQuery.EvalExtended` | apps/server/src/store.rs:64-69 | pushing more binds later neither breaks nor changes a fragment already generated |
| `MomentQuery.FriendMarks` | apps/server/src/store.rs:64-69 | the run of placeholders produced for the friend list names exactly the friends |
| `MomentQuery.AdmitsExactly` | apps/server/src/plugins/moments.rs:127-171 | without a space key every post the access check admits is on the timeline, and the only further posts there are `partial` ones that list the viewer but whose author is no friend |
| `MomentQuery.AdmitsMeaning` | apps/server/src/plugins/moments.rs:127-171 | who may see a single post without a key, audience by audience |
| `MomentQuery.SpaceKeyOpens` | apps/server/src/plugins/moments.rs:127-171 | a space key opens public posts of strangers and nothing else |
| `MomentQuery.BuildAudience` | apps/server/src/plugins/moments.rs:263-298 | the exact outcome: empty for public and friends; otherwise refused if and only if no name counts, too many do, or one is no friend; else the ids of the names in order |
| `MomentQuery.NamesMeaning` | apps/server/src/plugins/moments.rs:270-281 | which names count: each once, not empty, not the author's |
| `MomentQuery.NamesInOrder` | apps/server/src/plugins/moments.rs:270-281 | they come in the order of their first mention |
| `MomentPaging.Timeline` | apps/server/src/plugins/moments.rs:333-365 | one page is the first `limit` wanted posts, and `hasMore` is true if and only if there are others |
| `MomentPaging.FeedMeaning` | apps/server/src/plugins/moments.rs:333-365 | the feed holds exactly the visible posts, each once, newest first |
| `MomentPaging.FeedContinues` | apps/server/src/store.rs:3045-3063 | the last post as cursor continues the feed right behind it, even when times tie |
| `MomentPaging.FollowCursor` | apps/server/src/plugins/moments.rs:333-365 | following the cursor with any limit ends and yields the whole feed |
| `MomentPaging.NewerOrders` | apps/server/src/store.rs:3188-3197 | time, then id, both descending, is a strict total order on a keyed table |
| `MomentPaging.UnseenMeaning` | apps/web/src/plugins/moments.ts:107-133 | appending keeps exactly the posts not shown yet, in their order |
| `MomentPaging.MomentsClient.FetchPage` | apps/web/src/plugins/moments.ts:107-133 | after a refresh or an append the list is a prefix of the feed of exactly the expected length, and `hasMore` is right |
| `MomentPaging.MomentsClient.LoadAll` | apps/web/src/plugins/moments.ts:107-149 | refreshing and then loading more until there is no more shows the whole feed |
| `MessageLog.EveryLogNumbered` | apps/server/src/store.rs:1694-1746 | over any run of inserts and retention deletes the live messages of a session have distinct numbers that grow in insertion order |
| `MessageLog.RunOneMore` | apps/server/src/store.rs:1694-1746 | what each write of such a run does, after any run |
| `MessageLog.SaveNumbered` | apps/server/src/store.rs:1694-1746 | one insert keeps that |
| `MessageLog.DeleteNumbered` | apps/server/src/store.rs:2399-2417 | one retention delete keeps that |
| `MessageLog.MessageStore.SaveMessage` | apps/server/src/store.rs:1694-1746 | one row is appended, numbered above every live message of its session; a used id is refused |
| `MessageLog.MessageStore.DeleteMessagesBefore` | apps/server/src/store.rs:2399-2417 | exactly the rows before the cutoff go |
| `MessageLog.DeleteInOrder` | apps/server/src/store.rs:2399-2417 | the messages that stay keep their order |
| `MessageLog.MessagesSince` | apps/server/src/store.rs:1863-1879 | the first `limit` messages above the cursor, by number |
| `MessageLog.SinceMeaning` | apps/server/src/store.rs:1863-1879 | exactly the messages of the session numbered above the cursor, in the order of their numbers |
| `MessageLog.SinceIsInsertionOrder` | apps/server/src/store.rs:1863-1879 | the order by number is the order of insertion |
| `MessageLog.DeltaPage` | apps/server/src/plugins/chat.rs:885-901 | one page of one session |
| `MessageLog.DeltaMeaning` | apps/server/src/plugins/chat.rs:885-901 | as many of the next messages as asked for or all there are, whether that leaves any, and where to continue |
| `MessageLog.NextPart` | apps/server/src/plugins/chat.rs:885-901 | a page asked for behind the first rows of an answer is the next part of it, and `hasMore` is right |
| `MessageLog.SyncDelta` | apps/server/src/plugins/chat.rs:849-904 | for every requested session: the next messages, whether more follow, and the cursor to continue with |
| `MessageLog.SinceContinues` | apps/server/src/plugins/chat.rs:885-901 | continuing from the last number of a page continues right behind the page |
| `MessageLog.CatchUp` | apps/server/src/plugins/chat.rs:849-904 | repeating the synchronisation until nothing more is announced ends and returns exactly the messages above the start, once each and in order |
| `LiveSync.CollectsPrefix` | apps/server/src/plugins/chat.rs:849-904 | with any inserts between the pages a client collects a prefix of what the current log holds above its first cursor: in order, once each, nothing skipped; what is missing lies above its last cursor |
| `LiveSync.DeltaIsPage` | apps/server/src/plugins/chat.rs:885-901 | one answer of the synchronisation is one page of such a client, with its next cursor |
| `LiveSync.CollectsAll` | apps/server/src/plugins/chat.rs:849-904 | when nothing lies above the last cursor, it has everything |
| `LiveSync.SurvivorCollected` | apps/server/src/plugins/chat.rs:849-904 | with inserts and retention deletes in between, a message that stays is collected if and only if its number lies above the cursor held when it was there first and not above the last one |
| `LiveSync.NewcomerCollected` | apps/server/src/plugins/chat.rs:849-904 | a message inserted in between that stays is collected, once the client has caught up, if and only if the cursor was not above the live maximum |
| `MessageLog.NextMessageSeen` | apps/server/src/store.rs:1694-1746 | a client will be given the next message if and only if its cursor is not above the live maximum |
| `MessageLog.RetentionHidesNext` | apps/server/src/store.rs:2399-2417 | once retention has emptied a session, the next message gets number 1 and is hidden from every client that had seen one |
| `MessageLog.MessageList` | apps/server/src/store.rs:1784-1861 | for every combination of the six cursor fields: the first or the last `limit` rows of the window, oldest first in either case |
| `MessageLog.WindowMeaning` | apps/server/src/store.rs:1784-1833 | which messages a cursor selects: a number bounds exclusively and outranks an id, an id that is found bounds inclusively and outranks a time, a time counts if it parses |
| `MessageLog.AscendingMeaning` | apps/server/src/store.rs:1834-1839 | when the page is read from the old end |
| `MessageLog.PageAfter` | apps/server/src/store.rs:1784-1861 | an `afterSeq` page is the first `limit` messages above that number, whatever `afterId` and `after` say |
| `MessageLog.PageFrom` | apps/server/src/store.rs:1784-1861 | an `afterId` page is the anchor followed by the `limit - 1` messages behind it |
| `MessageLog.PageByTime` | apps/server/src/store.rs:1784-1861 | with a time alone: the last messages made before it, or the first made after it |
| `MessageLog.PageGarbled` | apps/server/src/store.rs:1784-1861 | a time that does not parse bounds nothing, but as `after` it still turns the page round to the first messages |
| `MessageLog.UntilMeaning` | apps/server/src/store.rs:1784-1861 | exactly the messages of the session below the bound, in the order of their numbers |
| `MessageLog.PageBefore` | apps/server/src/store.rs:1784-1861 | a `beforeSeq` page is the last `limit` messages below that number |
| `MessageLog.UntilContinues` | apps/server/src/store.rs:1784-1861 | everything below the first message of a page is everything before the page |
| `MessageLog.ReadBackwards` | apps/server/src/plugins/chat.rs:408-429 | walking backwards with any limit ends and yields the whole session once, in ascending order |
| `MessageLog.PageAround` | apps/server/src/store.rs:1784-1861 | a `beforeId` page is the anchor preceded by the `limit - 1` messages before it |
| `MessageLog.AnchorLast` | apps/server/src/store.rs:1757-1764 | the inclusive bound of an id cursor adds exactly the anchor |
| `MessageLog.DescendingReversed` | apps/server/src/store.rs:1825-1861 | the descending query read backwards is the ascending one |
| `Calls.WriteBackExact` | apps/server/src/plugins/screen.rs:627-680 | joining, and refusing to end a room, write back a whole room read earlier: for any such room the write is safe if and only if the room still has its place |
| `Calls.EngagedMeaning` | apps/server/src/plugins/screen.rs:70-92 | busy is who is at either end of a call or member of a room |
| `Calls.WriteBackCurrent` | apps/server/src/plugins/screen.rs:627-680 | with an up-to-date room that is the condition for a join in one step |
| `Calls.SecondJoinDropsFirst` | apps/server/src/plugins/screen.rs:627-680 | two joins from the same reading of a room: whoever writes first is dropped again |
| `Calls.CrossedInvites` | apps/server/src/plugins/screen.rs:338-363 | two invitations to the same person that both pass their check first leave that person in two calls |
| `Calls.InsertCallExact` | apps/server/src/plugins/screen.rs:338-363 | the check and the insertion are two critical sections: the insertion is safe if and only if both ends are free when it happens |
| `Calls.InsertRoomExact` | apps/server/src/plugins/screen.rs:580-625 | the same for opening a room |
| `Calls.JoinExact` | apps/server/src/plugins/screen.rs:627-680 | one more member is safe if and only if the user is free and the room has fewer than six |
| `Calls.RemoveKeepsSound` | apps/server/src/plugins/screen.rs:464-512 | removing a call or a room keeps the invariant |
| `Calls.LeaveKeepsSound` | apps/server/src/plugins/screen.rs:682-710 | a member other than the host may leave |
| `Calls.Struck` | apps/server/src/plugins/screen.rs:301-306 | striking a user gives up exactly that place and keeps the order |
| `Calls.ScreenState.FindCall` | apps/server/src/plugins/screen.rs:70-76 | the answer is a call if and only if it is the user's, in whatever order the table is searched |
| `Calls.ScreenState.FindRoom` | apps/server/src/plugins/screen.rs:78-84 | the same for rooms |
| `Calls.ScreenState.FindGroupRoom` | apps/server/src/plugins/screen.rs:86-92 | the same for the room of a group |
| `Calls.ScreenState.IsEngaged` | apps/server/src/plugins/screen.rs:338-356 | the busy check is exact |
| `Calls.ScreenState.InviteCheck` | apps/server/src/plugins/screen.rs:338-346 | the first critical section: both ends are free |
| `Calls.ScreenState.InviteInsert` | apps/server/src/plugins/screen.rs:359-363 | the second one, at any later time: the state stays valid if and only if both ends are still free |
| `Calls.ScreenState.Invite` | apps/server/src/plugins/screen.rs:319-417 | the two with nothing in between: accepted if and only if the two differ, are friends, free, and the peer is online |
| `Calls.ScreenState.Accept` | apps/server/src/plugins/screen.rs:442-462 | only the callee answers |
| `Calls.ScreenState.EndCall` | apps/server/src/plugins/screen.rs:464-512 | decline and hang-up: either party removes the call, a missing call is fine |
| `Calls.ScreenState.RingCheck` | apps/server/src/plugins/screen.rs:377-387 | the first critical section of the ring timer |
| `Calls.ScreenState.RemoveCall` | apps/server/src/plugins/screen.rs:388-391 | the second one, and the removal of the offline clean-up: the call goes, answered in between or not, and the state stays valid |
| `Calls.ScreenState.RingTimeout` | apps/server/src/plugins/screen.rs:373-412 | the two with nothing in between: the call goes if and only if it is still there and unanswered |
| `Calls.ScreenState.StartCheck` | apps/server/src/plugins/screen.rs:589-597 | the first critical section: the caller is free and the group has no room |
| `Calls.ScreenState.StartInsert` | apps/server/src/plugins/screen.rs:606-609 | the second one, at any later time: the state stays valid if and only if both still hold |
| `Calls.ScreenState.GroupStart` | apps/server/src/plugins/screen.rs:580-625 | the two with nothing in between: exact acceptance and new table |
| `Calls.ScreenState.JoinCheck` | apps/server/src/plugins/screen.rs:642-652 | the caller is in no call and in no other room |
| `Calls.ScreenState.WriteBack` | apps/server/src/plugins/screen.rs:665-670 | any room written over whatever stands under its id: the state stays valid if and only if the room still has its place |
| `Calls.ScreenState.GroupJoin` | apps/server/src/plugins/screen.rs:627-680 | the critical sections with nothing in between: accepted if and only if the room exists, the caller is a group member, and is in it or free with room left |
| `Calls.ScreenState.GroupLeave` | apps/server/src/plugins/screen.rs:682-710 | a host takes the room along; anybody else gives up exactly the own place, and the room stays otherwise as it was |
| `Calls.ScreenState.TakeRoom` | apps/server/src/plugins/screen.rs:716-722 | the first critical section of ending: the room is taken out unchecked, and the state stays valid |
| `Calls.ScreenState.GroupEnd` | apps/server/src/plugins/screen.rs:712-733 | with nothing in between: only the host ends the room; the room put back is unchanged |
| `Calls.ScreenState.Retain` | apps/server/src/plugins/screen.rs:301-306 | the last critical section of the offline clean-up, on the room as it is by then: the state stays valid if and only if the user is not its host |
| `Calls.ScreenState.CleanupOffline` | apps/server/src/plugins/screen.rs:230-308 | the critical sections with nothing in between: the user ends up in nothing, and exactly the one call and the one room change |
| `Groups.TransferNeedsAllSteps` | apps/server/src/plugins/group.rs:502-526 | the three statements together keep the invariant; the first, and the first two, do not |
| `Groups.StatementsExact` | apps/server/src/store.rs:1386-1542 | for each single statement, exactly when it keeps the invariant |
| `Groups.AddKnownMeaning` | apps/server/src/plugins/group.rs:301-315 | who a run of additions brings in, and that it touches nobody else |
| `Groups.GroupStore.Create` | apps/server/src/plugins/group.rs:138-161 | the creator owns the group, everybody else is a plain member |
| `Groups.GroupStore.AddMembers` | apps/server/src/plugins/group.rs:301-315 | succeeds if and only if a manager asks and all of the first hundred names are known; on an unknown name the additions before it stay |
| `Groups.GroupStore.Join` | apps/server/src/plugins/group.rs:377-408 | adds the caller, or only files a request when approval is on |
| `Groups.GroupStore.Approve` | apps/server/src/plugins/group.rs:434-453 | only managers, only open requests; the newcomer is a plain member |
| `Groups.GroupStore.Remove` | apps/server/src/plugins/group.rs:455-477 | oneself or by a manager, never the owner; exactly that member goes, all others keep their roles |
| `Groups.GroupStore.ChangeRole` | apps/server/src/plugins/group.rs:479-500 | the guard on the role column lets in exactly the person the owner column names; never to or of the owner |
| `Groups.GroupStore.TransferOwner` | apps/server/src/plugins/group.rs:502-526 | accepted if and only if the person the owner column names picks another member; both columns change hands together |
| `Groups.GroupStore.Leave` | apps/server/src/plugins/group.rs:636-649 | the guard on the owner column keeps out exactly the member with the role owner; exactly the caller goes, all others keep their roles |
| `Groups.GroupStore.Delete` | apps/server/src/plugins/group.rs:621-634 | by the owner, or by an administrator of the server |
| `Base32.RoundTrip` | apps/server/src/util.rs:133-169 | decoding the encoding gives back every byte string |
| `Base32.Encode` | apps/server/src/util.rs:133-150 | the loop with its unmasked 32-bit accumulator writes the bit stream five bits a letter, the last group filled up with zeros |
| `Base32.Decode` | apps/server/src/util.rs:152-169 | the loop reads the spelled bits back in whole bytes, ignoring case and foreign characters, and drops what is left over |
| `Base32.ShiftInHolds` | apps/server/src/util.rs:133-169 | shifting sheds high bits off the 32-bit word but never one that is still pending |
| `Base32.TopBits` | apps/server/src/util.rs:133-169 | reading off the top pending bits, and what stays pending |
| `Base32.SpelledLetters` | apps/server/src/util.rs:152-169 | reading letters back spells the same bits and at most four zeros more |
| `Base32.BytesOfStream` | apps/server/src/util.rs:152-169 | fewer than eight stray bits after a byte stream are dropped |
| `Base32.LettersLength` | apps/server/src/util.rs:133-150 | unpadded: one letter per started group of five bits (section 6 of RFC 4648) |
| `Base32.PositionOfLetter` | apps/server/src/util.rs:152-169 | every letter of the alphabet is found at its own place |

## Left out

- The histogram of the RPC metrics, the friendship table, invitation codes, member titles and mutes, message editing, recall and search: they would only add easy members.
- HTTP and WebSocket routing, the SQL driver and its collations, files, cryptography, the React interface, WebRTC, notifications and audit rows. Ids and names compare character by character.
- The checks before a handler's own logic (sign-in, administrator, session membership, friendship, delivery) are boolean parameters or taken as passed; the friend list is an input.
- 64-bit overflow of balances and numbers: integers are unbounded. The bounds on amounts and counts are those of the code.
- Trimming, lower-casing and Unicode: names arrive trimmed, `Base32.Upper` folds ASCII letters only. The round trip of time stamps through their ISO text is taken as exact to the millisecond.
- Red packets never move wallet balances in the code, so they have no part in the conservation law.
- Announcing bills and packets in the chat; a failed announcement leaves the stored row in place.
- Listings, reminders and overdue marks of transfers, bills and packets, and the session and type checks on bills.
- Boot timeouts are not steps: what they would hit is the set of plugins still waiting when no step is left, which `PluginBoot.NobodyLeftWaiting` shows empty on an acyclic graph.
- Plugin service values (only presence is modelled, so a service provided as `undefined` is not), the event bus, `dispose`, and a plugin registered again while its earlier start is still in flight.
- PluginContext.Context.StartEntry: one atomic step, with the outcome of `apply` given; the interleaved steps are in `PluginStart`, and `PluginBoot.AtomicStartIsRun` connects them.
- PluginContext.Context.Disable: one atomic step, although the program awaits each `dispose`.
- PluginLate.DeterminedExactly: enabling and disabling during the start are not among the interleaved steps, and no plugin declares a service that another one provides.
- PluginContext.Context.StartPass: an `apply` that throws before its first await is not part of this method; it is in `PluginPass.Pass`.
- PluginRegistry.WaitForAllEffect: waits are a set of (plugin, service) pairs, so two waits of the same plugin on the same service count as one.
- Calls.ScreenState.GroupJoin: the critical sections run with nothing in between; what may happen in between is the subject of `Calls.WriteBackExact` and `Calls.SecondJoinDropsFirst`.
- Calls.ScreenState.CleanupOffline: its critical sections run with nothing in between, so a user who comes back during the clean-up is not considered; the sections on their own are `RemoveCall`, `TakeRoom` and `Retain`, each exact at any time.
- Groups.GroupStore.Create: the invited are users already looked up; unknown names are skipped by the code before this point. New ids of groups, calls and rooms are fresh, as random ids are.
- Groups.GroupStore.Approve: whether the request is still open is a parameter; the table of join requests is not modelled.
- Base32.ShiftInHolds: the bitwise or of the program is written as addition, which is the same on disjoint bits.
