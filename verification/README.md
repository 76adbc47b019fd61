# LeanStock: stock ledger, job queue and paging, in Dafny

A Dafny model of the parts of LeanStock in which several pieces of state have to agree, with proofs
that they do: the stock ledger and its optimistic transactions, purchase orders, the RESP codec with
its socket reader, the retrying job queue, keyset pagination, refresh-token rotation and dead-stock
decay. `dafny verify dfyconfig.toml` checks the whole project.

## What is modelled

**Stock.** `Stock` holds the tables (locations, products, inventory rows, lots, movements,
reservations) as one value and every transaction of `inventoryService.js` as two functions, one that
reads and decides and one that performs the conditional writes. `Exec` is both on the same store;
`After` turns a throw into "nothing changed"; `Run` is any list of transactions. `Database` is the same
system in the form the services have, a mutable object whose methods update tables step by step with
the FIFO, sweep and receipt loops; each method leaves exactly the state that the function gives and
reports the same error, and keeps the object's `Valid()`, from which `Database.ObjectAgrees` reads off
what a client can rely on.

- `Ledger` proves the agreement of the five representations of stock in every reachable store:
  inventory rows, lots, location volumes, the movement log, sold counters.
- `FifoLoop` and `FifoOrder` are about the FIFO loop: what it takes, in closed form; additivity; order
  over runs. `Outcomes` says exactly when a transaction commits.
- `Lineage` proves that lots form a forest in which every receipt is conserved. `Valuation` proves what
  happens to cost layers and to the value of the stock. Costs are integers, the smallest unit of the
  `DECIMAL(12,2)` column.
- `Concurrent` splits receive, sell, transfer and reserve into a read and a later commit, for any number
  of clients and any interleaving, and proves that every interleaving is serializable. Neither Redis
  locks nor the Serializable isolation level are assumed: the conditional updates are enough.
- `Effects` says what each transaction leaves and when reservations, releases, expiries and receipt
  entries commit.
- `Reservations` accounts for reservations over serial runs, `Sweeps` is about the expiry sweep.
- `PurchaseOrders` adds orders and their receipts on top of the same store. `ReceiptLimits` says when a
  line receives more than was ordered, `OrderEffects` exactly when requests commit and what they leave.
  `Histories` is about runs of requests of every kind, receipts with payloads of any shape included: to
  the stock they are runs of transactions, a committed receipt being its entries one after the other
  (`Accept` in `Stock`).

**Redis.** `Doubles` is what JavaScript's `Number` makes of integers. `Resp` prints and parses RESP2
("Simple strings", "Simple errors", "Integers", "Bulk strings" and "Arrays" of the Redis serialization
protocol specification) over bytes, and `WireFormat` states the format byte by byte. `ReplyReader`
matches replies in a chunked stream to pending requests. `JobQueue` is the in-memory queue and its
workers.

**Lists, sessions, decay.** `Keyset` covers both page builders, page walks and the movement filter.
`RefreshTokens` and `DecayRuns` are read-then-compare-and-set protocols under any interleaving; `Decay`
is one decay run. `Options`, `Sums` and `Ordering` hold optional values, totals over rows and sorting.

A row's number stands for its id and for its place in the order of creation. `Lot.sold` and
`Token.session` are history, not columns: nothing branches on them. Clocks, generated lot codes, the
movement id in a child lot's code, whether an order's supplier was found and the fate of a database
commit are parameters.

## Where code and documentation part

- `README.md:151` of LeanStock counts on Redis locks. A held key's `SET NX` answers nil, which
  `src/jobs/redisQueue.js:111` turns into null and `src/utils/redisLock.js:17` accepts as success. The
  model uses no lock, and `docs/ARCHITECTURE.md:9-15` (conditional updates protect against overselling)
  is what `Concurrent` proves.
- "Expiry returns the reserved units" fails after a release without a reservation id:
  `Reservations.UnnamedReleaseBreaksExpiry` gives the run, `Reservations.ExpiryFailsIff` the exact
  condition for one reservation and `Sweeps.SweepThrowsIff` the one for a sweep. The sweep's loop has no
  catch, so such a reservation also blocks all later ones: `Sweeps.UnnamedReleaseBlocksSweeps`.
- "A line never receives more than was ordered" fails when a payload lists a line twice:
  `ReceiptLimits.RepeatedLineOverReceives` gives the run, `ReceiptLimits.ReceiptWithinOrderedIff` the
  exact condition for a receipt and `ReceiptLimits.WithinOrderedIff` the one for a run.
- "processed + skipped = total" fails for decay when a commit fails after its body counted:
  `Decay.FailedCommitCountsTwice` gives the input, `DecayRuns.CountersUnderOverlap` the exact difference.
- "The caller gets what the server sent" fails in two ways. An integer reply is read into a double
  (`Resp.IntegerReplyRounds` gives the reply), and an error nested in an array becomes undefined and
  loses its message (`Resp.NestedErrorIsLost`). `Resp.ParsedExactIff` is the exact condition for both.
- A page request with a negative limit, or with limit 0 and something to show, throws:
  `Keyset.ListPageThrowsIff`.

## Model

| member | source | states |
|---|---|---|
| Ledger.ExecInv | src/services/inventoryService.js:48-222 | any transaction that commits, an entry of a purchase-order receipt included, keeps rows, lots, volumes, log, sold counters and reservations in agreement |
| Ledger.RunInv | src/services/inventoryService.js:48-651 | the same over every run of transactions, failed ones included |
| Ledger.LogIsTheStock | src/services/inventoryService.js:185-194 | after any run of transactions and receipt entries, replaying the movement log from empty gives the on-hand quantity of every product at every location, every location's volume and every product's sold count |
| Ledger.RegionIsRow | prisma/schema.prisma:210-233 | a product has at most one row per location, so a region total is that row's quantity_on_hand |
| Ledger.Conservation | src/services/inventoryService.js:396-420 | over the same runs, units of a product on hand everywhere plus units sold equal all units ever received |
| Ledger.UnitsConserved | src/services/inventoryService.js:396-420 | so in every store in which the representations agree |
| Ledger.VolumesStayInBounds | src/services/inventoryService.js:174-194 | every location stays between 0 and its capacity in every run, although a transfer's source decrement is unguarded |
| Ledger.TransferInv | src/services/inventoryService.js:89-194 | a transfer keeps every agreement, including that of a destination row it creates |
| Ledger.SellInv | src/services/inventoryService.js:354-420 | a sale keeps every agreement |
| Ledger.DepositInv | src/services/inventoryService.js:260-300 | a receipt that fits keeps every agreement |
| Ledger.AcceptInv | src/services/purchaseOrderService.js:162-208 | an entry of a purchase-order receipt keeps every agreement although it checks the capacity only after its writes |
| FifoLoop.FifoList | src/services/inventoryService.js:70-78 | the list both loops walk holds exactly the row's lots with stock, each once, by received_at and then creation |
| FifoLoop.FifoIsByReceipt | src/services/inventoryService.js:70-78 | the list is ordered by received_at, and lots received at the same time by creation |
| FifoLoop.DrainRows | src/services/inventoryService.js:134-172 | the loop lowers each lot by what it takes from it and nothing else; a sale creates no lot; a transfer's new lots are in the destination row, with a parent that existed before |
| FifoLoop.DrainWeight | src/services/inventoryService.js:134-172 | for every linear weight of units (count, cost, any selection) the loop moves exactly the weight of the taken units, into the children or into what was sold |
| FifoLoop.DrainSucceeds | src/services/inventoryService.js:134-172 | with enough observed stock that is still there, the loop ends with nothing remaining, unless a child's lot code is taken |
| FifoOrder.ClosedForm | src/services/inventoryService.js:369-390 | after q units left a row, every set of lots closed under "older" holds max(0, before - q): the oldest units left |
| FifoOrder.PrefixShape | src/services/inventoryService.js:369-390 | a prefix of the lots is drained, at most one lot is left partial, all later ones are untouched |
| FifoOrder.Additive | src/services/inventoryService.js:335-390 | taking a and then b units, reading the lots again in between, leaves every lot as taking a + b does, and the takes of each lot add up |
| FifoOrder.SalesAdd | src/services/inventoryService.js:369-390 | two sales leave the same lot table as one sale of the sum |
| FifoOrder.DrainFollows | src/services/inventoryService.js:134-172 | while a lot keeps any stock the loop takes nothing from a younger lot of its row, and no lot's quantity ever rises |
| Outcomes.SellCommitsIff | src/services/inventoryService.js:325-453 | in every reachable store a sale commits exactly when place, product and unreserved stock allow it; the short-lots, changed-stock and volume throws are unreachable without a race |
| Outcomes.TransferCommitsIff | src/services/inventoryService.js:48-222 | the same for a transfer, with room at the destination and unused child lot codes, and the exact error otherwise; its lots never fall short |
| Outcomes.ReceiveCommitsIff | src/services/inventoryService.js:231-316 | a receipt commits exactly when the place is open, the product known, the units fit and the code is unused, with the exact error otherwise; it adds one parentless lot in the product's row there |
| Outcomes.MoveSucceedsIff | src/services/inventoryService.js:134-172 | codes of children created earlier in the same loop never collide with later ones: only codes taken before it can stop it |
| Outcomes.SalesCompose | src/services/inventoryService.js:325-453 | selling a + b commits exactly when selling a and then b does, and leaves the same store apart from the log having one entry less |
| Outcomes.SaleTakesOldest | src/services/inventoryService.js:335-394 | for every time t, a sale lowers the row's stock received up to t to max(0, before - q) |
| Outcomes.TransferTakesOldest | src/services/inventoryService.js:70-172 | the same for a transfer at its source |
| Outcomes.SaleUsesUpOlder | src/services/inventoryService.js:335-390 | of two lots of a row, the one received earlier, or at the same time and created earlier, is used up before a sale takes anything from the other |
| Outcomes.TransferUsesUpOlder | src/services/inventoryService.js:70-172 | the same for a transfer, in every row |
| Effects.TransferLeaves | src/services/inventoryService.js:83-194 | a committed transfer moves its units between exactly two rows and two volumes, keeps what rows reserve, creates a missing destination row, and logs itself |
| Effects.ReceiveLeaves | src/services/inventoryService.js:246-293 | a committed receipt adds its units to one row and one volume, one lot with its code, cost and time, and one entry in the log |
| Effects.AcceptCommitsIff | src/services/purchaseOrderService.js:162-208 | an entry of a purchase-order receipt commits exactly when its place and product exist, its code is unused and it fits, with the exact error otherwise; it leaves what a receipt leaves |
| Effects.ReserveCommitsIff | src/services/inventoryService.js:508-559 | a reservation commits exactly when its row is visible and on hand minus reserved covers it, with the exact error otherwise; only the reserved quantity and the new reservation change |
| Effects.ReleaseCommitsIff | src/services/inventoryService.js:565-619 | a release commits exactly when its row is visible, the asked quantity and that of a named reservation are reserved, and the named one is active on the row, with the exact error otherwise; it takes off the named reservation's quantity |
| Effects.ExpireCommitsIff | src/services/inventoryService.js:631-646 | an expiry leaves an ended reservation alone, and otherwise commits exactly when the row reserves what the reservation holds |
| Lineage.DrainForest | src/services/inventoryService.js:142-165 | the loop keeps parent links leading to earlier lots, unique codes, inherited cost and receipt time, and received = on hand + sold + received by children |
| Lineage.ExecLineage | src/services/inventoryService.js:142-165 | every committed transaction keeps the forest, and a child lot stays with its parent's product |
| Lineage.SwapSums | src/services/inventoryService.js:154-165 | summing children over the parents of a tree is summing the tree's non-root lots |
| Lineage.TreeConserved | src/services/inventoryService.js:154-165 | what a lot received is what is on hand or sold in the whole tree below it |
| Lineage.TreeInherits | src/services/inventoryService.js:154-165 | every lot of a tree has the cost, the receipt time and the product of its root |
| Lineage.LineageOfRuns | src/services/inventoryService.js:154-165 | all three for every lot of every run from an empty store |
| Valuation.TransferKeepsLayers | src/services/inventoryService.js:141-168 | a transfer changes no layer: units per product, receipt time and unit cost over all locations |
| Valuation.TransferKeepsValue | src/services/inventoryService.js:141-168 | a transfer changes neither the value of the stock nor the cost of what was sold |
| Valuation.SaleMovesValue | src/services/inventoryService.js:369-394 | a sale lowers the value by exactly the cost of the oldest units it takes, which becomes cost of sales |
| Valuation.DepositAddsValue | src/services/inventoryService.js:271-284 | a receipt adds its units at its cost and sells nothing |
| Valuation.ValueOfRuns | src/services/inventoryService.js:48-453 | in every run, value on hand plus cost of sales is the cost of all receipts |
| Valuation.TransfersKeepLayers | src/services/inventoryService.js:141-168 | any run of transfers leaves every layer and the value as they were |
| Concurrent.ExecLater | docs/ARCHITECTURE.md:9-15 | no transaction raises a lot's quantity, changes a lot's fixed columns, or passes over a lot that keeps stock |
| Concurrent.RunIsFifo | src/services/inventoryService.js:134-172 | over any run, while a lot still has stock nothing was taken from a younger lot of its row |
| Concurrent.SameLiveLots | src/services/inventoryService.js:142-152 | no ABA: when a row's aggregate is back at its observed value and its oldest observed lot is unchanged, the live lots are exactly the observed ones |
| Concurrent.SameTaking | src/services/inventoryService.js:122-152 | a conditional decrement of row and lots that succeeds saw what a fresh read would see |
| Concurrent.CommitLinearizes | src/services/inventoryService.js:122-194 | a commit against any later store succeeds only with the result of the whole transaction there |
| Concurrent.StaleSaleCommitsIff | src/services/inventoryService.js:354-387 | a sale with old reads commits exactly when the row and its oldest observed lot are unchanged, and is otherwise a conflict; the conditions on the other lots add nothing |
| Concurrent.StaleTransferCommitsIff | src/services/inventoryService.js:122-181 | a transfer with old reads commits exactly when the row and its oldest observed lot are unchanged, the child codes are still unused and the destination still has room, with the exact error otherwise |
| Concurrent.StaleReserveCommitsIff | src/services/inventoryService.js:524-536 | a reservation with old reads commits exactly when the row has the same two quantities, and is otherwise a conflict |
| Concurrent.StaleReceiptCommitsIff | src/services/inventoryService.js:246-280 | a receipt with old reads commits exactly when it still fits and its code is still unused, with the exact error otherwise |
| Concurrent.AloneIsWhole | docs/ARCHITECTURE.md:9-15 | a client with nobody in between does exactly what the whole transaction does |
| Concurrent.CommitLeaves | docs/ARCHITECTURE.md:9-15 | a commit leaves what its conditional writes leave, and otherwise the store as it is |
| Concurrent.StepOk | docs/ARCHITECTURE.md:9-15 | a step of any client keeps the ledger and every pending reading grounded, and changes the store only by a whole transaction |
| Concurrent.Linearizable | docs/ARCHITECTURE.md:9-15 | every interleaving leaves the store of the committed transactions alone, one after the other, in commit order |
| Concurrent.ConcurrentRunsKeepLedger | docs/ARCHITECTURE.md:15-15 | so from an empty store the ledger and the lot forest hold under every interleaving: nothing is oversold, lost or created |
| Reservations.ExecDrift | src/services/inventoryService.js:508-619 | only a release without an id makes active reservations differ from quantity_reserved, by exactly its units |
| Reservations.ReservationsBalance | src/services/inventoryService.js:508-651 | in every serial run 0 <= reserved <= on hand, and reserved plus units released without an id equals the active reservations |
| Reservations.ExpiryFailsIff | src/services/inventoryService.js:621-651 | expiring an active reservation fails exactly when unnamed releases exceed what the row's other active reservations hold |
| Reservations.NamedRunsAreExact | src/services/inventoryService.js:565-651 | when every release names its reservation, reserved is exactly the sum of active ones and every expiry commits |
| Reservations.UnnamedReleaseBreaksExpiry | src/services/inventoryService.js:565-604 | a concrete run in which a release without an id makes a later expiry fail |
| Reservations.EndingUndoesReserve | src/services/inventoryService.js:591-604 | releasing by id or expiring right after reserving gives back exactly the row that was there; a larger asked quantity than is reserved is a conflict |
| Reservations.EndedStaysEnded | src/services/inventoryService.js:591-644 | released and expired reservations keep that status through every run, so units return at most once |
| Sweeps.ScanIsSoonest | src/services/inventoryService.js:622-626 | a sweep scans only overdue active reservations, each once, in order of expiry, and all of them when they fit the limit; one left out expires after all scanned ones |
| Sweeps.SweepThrowsIff | src/services/inventoryService.js:629-648 | a sweep throws exactly when on some row the scanned reservations together hold more than the row reserves; otherwise it expires all of them and each row gives back exactly their sum |
| Sweeps.SweepStopsAt | src/services/inventoryService.js:629-648 | a sweep that throws stops at the first scanned reservation its row no longer covers, with exactly those before it expired |
| Sweeps.SweepCountsActive | src/services/inventoryService.js:628-646 | a sweep that goes through counts exactly the reservations that were active when it began, and touches no other |
| Sweeps.SweepExpiresAll | src/services/inventoryService.js:629-648 | without drift every row covers what is scanned: the sweep expires it all, no other reservation, and keeps the ledger |
| Sweeps.StuckForever | src/services/inventoryService.js:622-648 | when the first scanned reservation cannot expire, this sweep and every later one change nothing and throw, whatever else is overdue |
| Sweeps.UnnamedReleaseBlocksSweeps | src/services/inventoryService.js:622-648 | a concrete run after which one reservation could expire by itself but every sweep stops at an earlier one |
| Sweeps.SweepsOfNamedRuns | src/services/inventoryService.js:621-651 | after every run whose releases name their reservations a sweep expires all it scans and never throws |
| PurchaseOrders.ReceiveItemsEffect | src/services/purchaseOrderService.js:154-214 | a receipt raises every line and every location's volume by exactly the listed totals, touches no other order's lines, and keeps ledger and forest |
| ReceiptLimits.ReceiptWithinOrderedIff | src/services/purchaseOrderService.js:154-160 | after a receipt lines are within what was ordered exactly when the listed quantities per line together fit what remained |
| ReceiptLimits.WithinOrderedIff | src/services/purchaseOrderService.js:154-214 | over any run of requests lines stay within what was ordered exactly when no committed receipt lists, in total, more of a line than remained |
| ReceiptLimits.DistinctStaysWithin | src/services/purchaseOrderService.js:154-214 | receipts that list no line twice never exceed what was ordered |
| ReceiptLimits.RepeatedLineOverReceives | src/services/purchaseOrderService.js:154-214 | from nothing: an order of one unit, submitted and approved, receives two by a payload that lists its line twice |
| OrderEffects.CreateCommitsIff | src/services/purchaseOrderService.js:61-95 | an order is created exactly when the supplier was found and every line is in scope; it is a draft whose lines carry the asked product, location, quantity and cost |
| OrderEffects.ChangeCommitsIff | src/services/purchaseOrderService.js:110-138 | exactly drafts are submitted, submitted orders approved, and drafts, submitted and approved orders cancelled, with the exact error otherwise |
| OrderEffects.StockCommitsIff | src/services/inventoryService.js:48-651 | a transaction on stock among the requests does what it does alone and changes no order |
| OrderEffects.EntryCommitsIff | src/services/purchaseOrderService.js:154-214 | one entry commits exactly when its line is of the order, the quantity within what remained before the receipt, the code unused and the units fit, with the exact error otherwise |
| OrderEffects.ReceiptBooks | src/services/purchaseOrderService.js:176-199 | a receipt leaves one lot and one movement per entry, in order, with the line's product, location and cost and the entry's quantity, code and time |
| OrderEffects.ReceiptCommitsIff | src/services/purchaseOrderService.js:140-224 | a receipt commits exactly when the order is approved or received, all entries are within what remained, all codes are new and all entries together fit at every location; the order is then RECEIVED if every line has what was ordered, else APPROVED |
| PurchaseOrders.ReceiptFits | src/services/purchaseOrderService.js:195-205 | a receipt with an entry that does not fit commits nothing at all; one that commits leaves no location over capacity |
| PurchaseOrders.ReceiptAddsLineCosts | src/services/purchaseOrderService.js:170-186 | the value of the stock rises by the entries' quantities at the order's prices |
| PurchaseOrders.PerformInv | src/services/purchaseOrderService.js:61-224 | creation, transition, receipt of any payload and stock transactions keep orders, lines, ledger and log in agreement |
| PurchaseOrders.CancelledIsFinal | src/services/purchaseOrderService.js:110-138 | a cancelled order stays cancelled and receives nothing more, whatever is requested afterwards |
| PurchaseOrders.ApprovedThroughSubmission | src/services/purchaseOrderService.js:110-138 | an order that can receive was submitted and later approved in its run, payloads of any shape |
| PurchaseOrders.OrdersAgreeWithLines | src/services/purchaseOrderService.js:110-224 | over every run of requests, payloads of any shape: RECEIVED exactly when every line has received at least what was ordered, drafts and submitted orders have nothing, and the log holds for the order what its lines sum to |
| Histories.ActionsAreOps | src/services/purchaseOrderService.js:140-224 | every run of requests leaves the stock that a run of transactions leaves, so all results over runs cover it |
| Histories.LogIsTheStockAlways | src/services/purchaseOrderService.js:163-204 | over every run of requests, receipts of any payload included: rows, volumes and sold counters are the replayed log |
| Histories.ConservationAlways | src/services/purchaseOrderService.js:163-204 | on hand plus sold equals all units received, directly and from orders |
| Histories.VolumesAlwaysInBounds | src/services/purchaseOrderService.js:201-208 | every location stays between 0 and its capacity |
| Histories.LotsAlwaysAgree | src/services/purchaseOrderService.js:176-185 | every row holds what its lots hold, and each receipt is conserved in its tree of lots |
| Histories.LineageAlways | src/services/purchaseOrderService.js:176-185 | the whole ledger and lot forest hold, as every result on single transactions asks |
| Histories.ValueAlwaysBalances | src/services/purchaseOrderService.js:176-185 | value on hand plus cost of sales is the cost of all receipts |
| Histories.ReservationsAlwaysBalance | src/services/inventoryService.js:508-651 | reserved quantities plus unnamed releases are what active reservations hold, and never exceed what is on hand |
| Histories.NamedHistoriesAreExact | src/services/inventoryService.js:565-651 | when every release names its reservation, reserved is exact and every expiry commits |
| Database.ConsumeLots | src/services/inventoryService.js:134-172 | the loop with its remaining counter and its three ways out ends as the recursive form that the FIFO theorems are about |
| Database.Database.SellStock | src/services/inventoryService.js:325-453 | table-by-table updates leave the store of the sale the theorems are about, or on a throw exactly the old store |
| Database.Database.CommitSale | src/services/inventoryService.js:354-420 | the same for the writes alone, with readings of any age; readings of any earlier store leave the object valid |
| Database.Database.TransferStock | src/services/inventoryService.js:48-222 | the same for a transfer |
| Database.Database.CommitTransfer | src/services/inventoryService.js:122-194 | the same for the writes of a transfer alone |
| Database.Database.ReceiveStock | src/services/inventoryService.js:231-316 | the same for a receipt |
| Database.Database.ReserveInventory | src/services/inventoryService.js:508-559 | the same for a reservation |
| Database.Database.ReleaseReservation | src/services/inventoryService.js:565-619 | the same for a release, with or without an id |
| Database.Database.ReleaseExpiredReservations | src/services/inventoryService.js:621-651 | the sweep's loop and counter agree with the sweep of the theorems, also when it stops at a failing transaction |
| Database.Database.TransitionPurchaseOrder | src/services/purchaseOrderService.js:110-138 | only the named order's status changes, and only along an allowed step |
| Database.Database.CreatePurchaseOrder | src/services/purchaseOrderService.js:61-95 | a missing supplier rejects the order, and so does one line out of scope; otherwise a draft with its lines is added |
| Database.ReceiveEntry | src/services/purchaseOrderService.js:154-214 | one turn of the receipt loop, step by step, is one step of the receipt the theorems are about |
| Database.ReceiveEntries | src/services/purchaseOrderService.js:154-214 | the loop over the payload ends as the receipt the theorems are about, with the error of the first entry that fails |
| Database.Database.ReceivePurchaseOrder | src/services/purchaseOrderService.js:140-235 | all entries and the recomputed status are committed, or nothing; the object stays valid |
| Database.ObjectAgrees | docs/ARCHITECTURE.md:15-15 | in every valid object, and every method keeps it valid: rows match lots, volumes match the log within capacity, products are conserved, orders match their lines and the log |
| Resp.NumberRoundTrip | src/jobs/redisQueue.js:107-118 | the decimal of an integer reply or of a length stands for that integer, negative ones too |
| Doubles.NearestIsNearest | src/jobs/redisQueue.js:107-107 | what Number gives is a double, and no double is nearer to the integer on the line |
| Doubles.ExactIff | src/jobs/redisQueue.js:107-107 | an integer survives Number exactly when it has at most 53 significant bits |
| Doubles.FirstInexact | src/jobs/redisQueue.js:107-107 | 2^53 + 1 is the first integer that does not, and becomes 2^53 |
| Doubles.TiesToEven | src/jobs/redisQueue.js:107-107 | halfway between two doubles the even one is taken |
| Resp.ParseReply | src/jobs/redisQueue.js:97-132 | the parser ends on every input, and with its loops agrees with the recursive parse of the theorems |
| Resp.ParseArray | src/jobs/redisQueue.js:117-128 | the loop over values and cursor agrees with the recursive form, at any nesting |
| Resp.ParseStays | src/jobs/redisQueue.js:97-132 | bytes appended later never change a parse that was complete |
| Resp.RoundTrip | src/jobs/redisQueue.js:97-132 | any well-formed reply parses, wherever it stands and whatever follows it, to its value with integers rounded to doubles, ending where it ends |
| Resp.ParsedExactIff | src/jobs/redisQueue.js:97-132 | a reply parses to what the protocol denotes exactly when it is an error itself, or every integer in it is a double and no error is nested in an array |
| Resp.NestedErrorIsLost | src/jobs/redisQueue.js:123-125 | an array holding an error parses to an array holding undefined, the same for every message |
| Resp.IntegerReplyRounds | src/jobs/redisQueue.js:107-107 | a legal 64-bit reply that the caller receives as another number |
| Resp.RoundedIsParse | src/jobs/redisQueue.js:97-132 | a parser that reads every length as a double gives the same result in every buffer below 2^53 bytes, at any nesting |
| Resp.RoundTripAll | src/jobs/redisQueue.js:117-128 | the same for all items of an array in sequence |
| Resp.PrefixIncomplete | src/jobs/redisQueue.js:97-132 | every proper prefix of a well-formed reply is incomplete |
| Resp.CommandRoundTrip | src/jobs/redisQueue.js:16-21 | a printed command followed by any bytes parses to exactly its arguments, whatever bytes they hold, and to the offset where the rest begins |
| Resp.CommandsDiffer | src/jobs/redisQueue.js:16-21 | no command prints to the bytes or to a proper prefix of the bytes of another |
| WireFormat.DigitsAreDecimal | src/jobs/redisQueue.js:16-21 | sizes are printed in base 10, most significant digit first, without leading zeros |
| WireFormat.NumberReads | src/jobs/redisQueue.js:107-118 | decimal digits are read in base 10, with or without a sign |
| WireFormat.BulkOnTheWire | src/jobs/redisQueue.js:109-115 | 36, the length, 13 10, any bytes of that length, 13 10 is read as those bytes |
| WireFormat.LinesOnTheWire | src/jobs/redisQueue.js:105-106 | a line after 43 is a text and after 45 an error |
| WireFormat.IntegersOnTheWire | src/jobs/redisQueue.js:107-107 | a decimal of 64 bits after 58, negative ones too, is read as the nearest double |
| WireFormat.NullsOnTheWire | src/jobs/redisQueue.js:109-119 | length -1 is null for bulk strings and arrays |
| WireFormat.ArraysOnTheWire | src/jobs/redisQueue.js:117-128 | 42, the number of items, 13 10 and the items are read as the list of their values |
| WireFormat.OtherTypesOnTheWire | src/jobs/redisQueue.js:131-131 | a line of any other type is refused |
| WireFormat.CommandOnTheWire | src/jobs/redisQueue.js:16-21 | a command is printed as 42, the number of its arguments, 13 10, and each argument as 36, its length, 13 10, its bytes, 13 10 |
| ReplyReader.SettledTwice | src/jobs/redisQueue.js:41-44 | draining early and again with more bytes is draining once with all of them; a reply whose numbers the model does not read (`Outside`) ends the claim |
| ReplyReader.ChunksDoNotMatter | src/jobs/redisQueue.js:76-85 | any two ways of cutting the same bytes settle the same requests with the same answers and leave the same buffer; a reply whose numbers the model does not read (`Outside`) ends the claim |
| ReplyReader.StreamAnswers | src/jobs/redisQueue.js:76-85 | a stream of n well-formed replies settles the first n requests in order and leaves no byte |
| ReplyReader.AnyChunksAnswer | src/jobs/redisQueue.js:41-85 | the same however the stream is cut into chunks |
| ReplyReader.TimingDoesNotMatter | src/jobs/redisQueue.js:67-85 | requests sent at any times between the chunks are settled as if all requests and all bytes had been there from the start; a reply whose numbers the model does not read (`Outside`) ends the claim |
| ReplyReader.AnyTimingAnswers | src/jobs/redisQueue.js:41-85 | once the last chunk is in, the i-th request sent has the i-th reply and no byte is left, whenever requests were sent and however the stream was cut |
| ReplyReader.AnswerAt | src/jobs/redisQueue.js:76-85 | the i-th request is resolved or rejected with the i-th reply |
| ReplyReader.RedisConnection.DrainReplies | src/jobs/redisQueue.js:76-85 | the loop over buffer and pending ends in the state the stream theorems are about |
| ReplyReader.RedisConnection.Data | src/jobs/redisQueue.js:41-44 | so does the data handler, for any chunk |
| JobQueue.NextOk | src/jobs/redisQueue.js:194-290 | any step of any worker keeps the agreement of jobs, queues and holders |
| JobQueue.WorkOk | src/worker.js:96-117 | the same over every interleaving of workers and submissions |
| JobQueue.QueueSafety | src/jobs/redisQueue.js:194-290 | a job waits exactly once and in its own queue while queued, is held by exactly one worker while active, waits nowhere otherwise; attempts never exceed the maximum and failed means it is reached |
| JobQueue.PollIsTwoSteps | src/worker.js:96-108 | a poll is a take and a report of one worker, so the safety and draining results cover startWorker's polls in any overlap |
| JobQueue.QueueDrains | src/jobs/redisQueue.js:261-290 | without new jobs, at most the sum of the unfinished jobs' remaining attempts further reservations happen |
| JobQueue.FinishedStays | src/jobs/redisQueue.js:245-290 | completed and failed jobs never change again |
| JobQueue.SubmitLeads | src/jobs/redisQueue.js:194-211 | a new job is last in its queue with the attempts asked for or 3, and other queues are unchanged |
| JobQueue.TakeLeads | src/jobs/redisQueue.js:232-243 | a free worker gets the first waiting job, active with one more attempt, and only that |
| JobQueue.SuccessLeads | src/jobs/redisQueue.js:245-259 | a success completes the job, which keeps its attempts and waits nowhere |
| JobQueue.FailureLeads | src/jobs/redisQueue.js:261-290 | a failure puts the job last in its own queue exactly while it has attempts left, and otherwise ends it |
| JobQueue.PollLeads | src/worker.js:96-108 | a poll leaves the first waiting job completed, last in its queue again, or failed, by its outcome and attempts |
| JobQueue.CompletedForGood | src/jobs/redisQueue.js:245-259 | a job that succeeded stays completed, waits nowhere and is never held again, whatever follows |
| JobQueue.FirstInFirstOut | src/jobs/redisQueue.js:208-234 | jobs are taken from a queue in the order in which they joined it: what waited and joined is what was taken followed by what waits |
| JobQueue.MemoryQueue.EnqueueJob | src/jobs/redisQueue.js:194-211 | the new job is last in its queue, other queues are unchanged, 0 attempts means 3 |
| JobQueue.MemoryQueue.ReserveJob | src/jobs/redisQueue.js:232-243 | the oldest waiting job leaves the queue, active with one more attempt; an empty queue changes nothing |
| JobQueue.MemoryQueue.MarkJobFailed | src/jobs/redisQueue.js:261-290 | the job goes to the end of its own queue, or to no queue once its attempts are used |
| JobQueue.MemoryQueue.Poll | src/worker.js:96-108 | the calls a poll makes leave the queue that PollIsTwoSteps is about, unchanged when it is empty |
| Keyset.RestAfter | src/services/stockMovementService.js:46-64 | behind the last row of a page is exactly what the page cut off |
| Keyset.WalkIsExact | src/services/stockMovementService.js:46-93 | following next_cursor with limit >= 1 gives the whole ordered list from any cursor: no gap, no repeat |
| Keyset.PageIs | src/services/stockMovementService.js:66-78 | a page holds the first rows behind its cursor, as many as the limit, and has a next cursor, its last row, exactly when there are more |
| Keyset.MovementWalk | src/services/stockMovementService.js:80-93 | for movements by created_at and id descending, equal timestamps included, the walk is the table sorted |
| Keyset.IdWalk | src/utils/paginator.js:26-39 | the same for the lists ordered by id |
| Keyset.ChangingWalkAscends | src/services/stockMovementService.js:46-93 | whatever is inserted or deleted between pages, rows come in strict order, so none twice |
| Keyset.ChangingWalkExact | src/services/stockMovementService.js:46-93 | and a row present throughout appears exactly once by the time has_more is false |
| Keyset.BuildPageThrowsIff | src/utils/paginator.js:26-39 | a page cannot be built exactly when rows are cut off and none is left to take the cursor from |
| Keyset.ListPageThrowsIff | src/services/stockMovementService.js:80-93 | a list request throws exactly for a negative limit, and for limit 0 when there is anything to show |
| Keyset.PageLimitPositiveIff | src/utils/paginator.js:17-24 | a requested whole number up to the cap is the limit, a larger one gives the cap, none the default; a limit of at least 1 comes from exactly these requests with numbers from 1 |
| Keyset.MovementWhere.Build | src/services/stockMovementService.js:29-44 | the filter object matches exactly the rows with all asked columns, at either end for a location |
| Keyset.MovementWhere.AddCursorFilter | src/services/stockMovementService.js:46-64 | a full cursor keeps exactly the matching rows after it in the list's order; an id alone those with a higher id; no cursor all of them |
| Keyset.ListStockMovements | src/services/stockMovementService.js:80-93 | building the filter, adding the cursor to it and querying gives the page of the list of wanted rows |
| Keyset.FilteredWalk | src/services/stockMovementService.js:29-93 | following its cursors shows exactly the rows the filter wants, newest first, each once |
| RefreshTokens.AuthService.SignIn | src/services/authService.js:300-377 | a token is issued exactly for an enabled, unlocked account with the right password, and the failure counter and lock move as specified |
| RefreshTokens.AuthService.Refresh | src/services/authService.js:379-432 | a successor is issued exactly when the read checks and the later conditional update both pass, and otherwise nothing changes |
| RefreshTokens.SignInDoes | src/services/authService.js:300-354 | a login of an enabled, unlocked account adds a live token of that user and clears the failures, or counts the failure and locks for 15 minutes from the fifth on; any other login changes nothing |
| RefreshTokens.RefreshReadDoes | src/services/authService.js:383-398 | a refresh goes on exactly with a live, unexpired token of an enabled account |
| RefreshTokens.RefreshWriteDoes | src/services/authService.js:400-425 | its write revokes the token and adds a live one of the same user exactly when the token is still live and unexpired |
| RefreshTokens.SignOutDoes | src/services/authService.js:434-450 | a logout revokes exactly the given token, a logout everywhere exactly the user's tokens |
| RefreshTokens.RefreshIsTwoEvents | src/services/authService.js:379-432 | the whole refresh is its read and its write with nothing in between |
| RefreshTokens.NextKeeps | src/services/authService.js:383-432 | any event of any client keeps at most one live token per session, and no event undoes a revocation |
| RefreshTokens.RedeemedOnce | src/services/authService.js:400-410 | under any interleaving each token is redeemed at most once and is then revoked for good |
| RefreshTokens.LiveAtMostLogins | src/services/authService.js:315-450 | a user's live tokens grow by at most the number of that user's successful logins |
| RefreshTokens.SessionsNeverMultiply | src/services/authService.js:379-450 | from no tokens: live tokens never exceed logins, no double redemption, one live token per session |
| Decay.FindOk | src/services/decayService.js:37-78 | candidates are lots with stock that can be sold, old enough and not decayed for 72 hours, the oldest first; such a lot that is not among them is younger than all of them, and there are then 100 |
| DecayRuns.NextOk | src/services/decayService.js:122-176 | an event of any run, and any other transaction on the lots, keeps every pending candidate's window and all applications a window apart |
| DecayRuns.LoopIsEvents | src/services/decayService.js:122-176 | a run that nothing interrupts is a start and one event per candidate, so the results on overlapping runs cover the loop |
| DecayRuns.WindowsFromStart | src/services/decayService.js:145-156 | however runs overlap with each other and with sales, transfers, receipts and price changes, two applications to one lot are at least 72 hours apart |
| DecayRuns.MovesByAWindow | src/services/decayService.js:145-156 | any event that moves last_decay_applied_at moves it on by at least 72 hours |
| DecayRuns.AuditsTellTheMoves | src/services/decayService.js:145-168 | under the same overlap: a lot's time is that of its last audit, it has exactly one audit per event that moved its time, and each audit goes from the discount its run's query found to the smaller of that plus the run's step and the run's cap |
| DecayRuns.AuditsRaise | src/services/decayService.js:125-168 | with positive steps every audit has old < new <= cap |
| Decay.CountersAddUp | src/services/decayService.js:119-178 | for a whole run, processed + skipped is total plus the transactions that failed at their commit |
| Decay.HandleDoes | src/services/decayService.js:125-168 | a clean transaction applies decay exactly when the candidate is below the cap and its lot's time is unchanged, and otherwise changes nothing |
| Decay.ProcessedAreWon | src/services/decayService.js:122-176 | processed counts exactly the turns whose body found the candidate below the cap and its lot's time unchanged |
| Decay.FailedCommitCountsTwice | src/services/decayService.js:119-178 | one candidate whose commit fails counts as processed and as skipped |
| DecayRuns.CountersUnderOverlap | src/services/decayService.js:119-178 | under any overlap, processed + skipped + left to do is total plus the run's failed commits |
| Decay.DecayService.ProcessLot | src/services/decayService.js:123-175 | one candidate's transaction and its effect on the counters, however it ends, are those the theorems are about |
| Decay.DecayService.ApplyDeadStockDecay | src/services/decayService.js:103-182 | the loop's updates, audits and counters are those of the run the theorems are about |

## Left out

- Redis locks: `src/utils/redisLock.js` gives no exclusion that a property could rest on.
- Concurrent interleavings of release, expiry and purchase-order receipt: their status writes and line reads are not conditional, so they appear only as whole transactions.
- What findMany makes of a limit that is not a number: getPaginationParams then gives NaN, and the query is not part of this model.
- Resp.RoundTrip: an error nested inside an array parses to a missing value, as in the code; integers that are no decimals of 64 bits, lengths that are no decimals and lengths below -1 parse to `Outside` and nothing is said about them.
- Connecting, AUTH and the socket's error handler, which rejects all pending requests: they parse nothing.
- JobQueue.QueueSafety: a worker that crashes between reserving and reporting keeps its job, as in the code; the Redis branch of the queue, mixing both branches, payloads, results and times are left out.
- DecayRuns.WindowsFromStart: needs a clock that never goes back.
- Lot quantity_reserved: no code raises it, so the column is dropped and a lot's available quantity is its quantity on hand.
- 32-bit column overflow: stock is bounded by capacities and an overflow of sold_count would abort the transaction.
- last_sold_at, audit logs, price history, emails, log lines, cron, HTTP, rate limits and the frontend: they do not feed back into what is modelled.
- Tenants, product scope and administrative edits of capacity or warehouse status: locations and products are fixed inputs, with a hidden and an active flag per location.
- Edits of a draft order's notes and expected date: they touch no modelled column.
- JSON, base64, UTF-8, JWT, bcrypt and Zod: cursors decode to what was encoded, signed tokens are distinct, payloads have passed validation.
- low_stock=true listings: they filter after a bounded fetch, so walks over them are not complete.
- Password rules, roles, forecasts, supplier and product records: they share no state with what is modelled.
