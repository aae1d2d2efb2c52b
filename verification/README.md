# Order-to-cash verification

A Dafny model of the order-to-cash engine: the warehouse fulfillment ledger, invoicing
and subscription billing, the approval and negotiation workflow of quotations, order
confirmation under an advisory lock, the generation-counter cache, and the derived price
and variant tables.  `dafny verify dfyconfig.toml` checks it.

## How it is modelled

Each component has a pure model: a datatype for one committed state of its tables, and a
function per call that gives the next state or the refusal.  A Python exception or a
violated CHECK, UNIQUE, NOT NULL or RESTRICT refuses the call; calls that commit before the
statement that fails keep what they committed.  Beside it stands the service itself: a
class whose fields are the tables, whose methods update them in place with the service's own
loops, each proved to have exactly the effect the model gives it.  Theorems about whole
runs are then proved about the model, and the `...Effects` modules state what each call
writes in the figures it was given, independently of the functions that compute it.  The confirmation lock and the cache are state
machines over the steps other workers can come between.

Money, percentages, unit prices and rates are integers at the scale of their columns (two,
two, four and six decimals); proration factors, scores and taxes are exact rationals until
the code rounds them.  `round(Decimal, 2)` is half-even, `quantize(..., ROUND_HALF_UP)`
rounds half away from zero.

| files | component |
|---|---|
| `SplitPlanner`, `Ledger`, `LedgerWalk`, `LedgerPlan`, `LedgerInvariant`, `LedgerCalls`, `LedgerTheorems`, `SplitTheorems`, `LedgerEffects`, `FulfillmentDesk` | stock, allocations, shipments, shipped invoicing |
| `Numbers`, `Rounding`, `InvoiceMoney`, `QuoteToCash` | cent arithmetic, and what shipped billing charges against the quote |
| `Calendar`, `Subscriptions`, `SubscriptionTheorems`, `SubscriptionEnding`, `SubscriptionEffects`, `SubscriptionDesk` | cycles, proration, recurring billing |
| `Scoring`, `Governance`, `GovernanceInvariant`, `GovernanceTheorems`, `GovernanceSnapshots`, `GovernanceEffects`, `GovernanceDesk` | risk score, routing, rounds, counter-offers |
| `Confirmation`, `CacheProtocol`, `CacheGap` | the two concurrent protocols |
| `PriceMatrix`, `CatalogEffects`, `CatalogDesk`, `Skus`, `Variants`, `VariantNames`, `VariantEffects`, `VariantDesk` | derived catalog tables |
| `ServiceRuns` | clients that run the services |

## Where the code and what it promises differ

The model follows the code.  Each point below is a theorem with its exact condition, a
concrete input or run, or both.

- Two warehouses that can both cover a line are to be decided on the rates a human entered
  (fulfillment_service.py:8-9).  The listing sorts by depth first, and never by the unit
  rate, so a dearer shelf can win (`DeepestWinsOverCheapest`, `DearWarehouseChosen`,
  `DearWarehouseWinsTie`).
- Deepest stock first is to minimise the warehouses touched (fulfillment_service.py:5-7).  It
  does so line by line (`GreedyTouchesFewest`); an order of several lines can be spread over
  more warehouses than it needs (`OneWarehouseIff`, `TwoLinesApart`).
- Lines of one order are planned against the same stock, so two of them can be promised the
  same units, and acceptance then backorders one (`AcceptReservesAllIff`,
  `SameUnitPromisedTwice`).
- Acceptance is to open one planned shipment per warehouse (fulfillment_service.py:260-262).
  After a sweep before acceptance there are two (`AcceptKeepsOnePlannedIff`,
  `SecondShipmentIsEmpty`).
- Replacing a plan that already holds reserved stock deletes the rows without giving the
  units back; they stay reserved for nobody (`CallIsExactIff`, `ReservedUnitLeaks`).  It
  takes a sweep before acceptance, since the sweep ignores `accepted_at`.
- The portal page offers one counter-offer at a time, its endpoint does not enforce it.
  With two open, a deal can be confirmed while the round its own terms opened is still
  waiting (`CallAgreesIff`, `SecondCounterSkipsApproval`, `UnapprovedDealOrdered`).
- Prices are to be reloaded on drafts only (quotation_service.py:223-258).  Submitting
  something that is no draft is refused after it has been repriced from today's catalog
  (`LateSubmitMovesIff`, `LateSubmitAfterRuns`, `ApprovedPriceMoves`).
- The chain is routed on the stored score and the band shown is taken from the exact one;
  in [44.995, 45) Finance is asked at band MEDIUM (`FinanceIffHigh`, `FinanceAskedAtMedium`).
- Cancelling at period end is to end the contract when the paid period runs out
  (subscription_service.py:224-241).  It ends if and only if one further period is billed,
  and never while pending credit exceeds the charge (`EndsIffBilledAgain`,
  `DailyRunsEndIff`, `UnbillableNeverEnds`; `PaidThenCancelledStillBilled`,
  `BilledForFebruary`, `CreditKeepsItOpen`).
- Cancelling at once is to credit the days the customer has paid for and will not receive
  (subscription_service.py:237-241).  A bill moves the contract on to the next period, so
  the days credited were never billed (`RefundIsForPaidDaysIff`, `FebruaryRefunded`).
- A mid-cycle change is to be prorated for the unused remainder (subscription_service.py:99).
  The period's own bill takes the new quantity for all of it as well, so a period is charged
  as it was used only if its quantity ends as it began (`ChargedAsUsedIff`,
  `BillAfterChanges`, `LicenceAdded`).
- Monthly cycles taken one at a time forget a day past the 28th (`NoDriftIff`,
  `DriftHappens`).
- The confirm lock alone is not exclusive once its key expires under a live holder; the
  UNIQUE constraint is what makes confirmation happen once (`ExpiryAdmitsTwoIff`,
  `NeitherSuffices`, `LockSufficesWhileTheKeyLasts`, `ExactlyOnce`).
- The first bump of a namespace, with its counter missing, invalidates nothing
  (`BumpMovesIff`, `FirstBumpInvalidatesNothing`).
- A decision on an approval round bumps the dashboard namespace (approval_service.py:309)
  before its endpoint commits (approvals.py:234); what a dashboard read
  (report_service.py:358-360) loads in between stays behind in the new generation
  (`StaleIffFiledInTheGap`, `ReadInTheGapGoesStale`, `LateStoreGoesStale`,
  `QuietGapIsFresh`).
- Saving the variant matrix with no base currency or no tier answers normally and stores
  nothing, because the rebuild holds the only commit (`SaveIsKeptIff`).
- Generating variants aborts on UNIQUE(product_id, name) when two missing combinations read
  the same, when one reads like a row that stays, as after renaming an axis, or when a
  variant is called "Default" (`GenerateRefusedIff`, `CreateRefusedIff`,
  `SetAxesRefusedIff`, `RedByAnotherName`, `SlashesCollide`, `DefaultByName`).

A downgrade gets both "a credit and a credit note", as the service's header promises
(subscription_service.py:12-13).  Nothing links the two, so the same amount is given once on
the credit note and once more off the next invoice (`DowngradeCreditedTwiceIff`,
`OneLicenceFewer`).

## Model

| member | source | states |
|---|---|---|
| `SplitPlanner.TakesIsDraw` | backend/app/services/fulfillment_service.py:122-138 | For any listing of shelves the planner draws exactly min(wanted, everything available), never more than a shelf holds and never a negative amount |
| `SplitPlanner.GreedyTouchesFewest` | backend/app/services/fulfillment_service.py:96-165 | No other way of drawing as many units from those shelves touches fewer warehouses |
| `SplitPlanner.LastShelfNeeded` | backend/app/services/fulfillment_service.py:128-133 | The shelves before the last one the planner touches could not have supplied the amount on their own |
| `SplitPlanner.DrainsInOrder` | backend/app/services/fulfillment_service.py:128-138 | A shelf that keeps something is the last one drawn on |
| `LedgerPlan.StockForIsTheQuery` | backend/app/services/fulfillment_service.py:79-93 | The availability listing is sorted deepest first, then cheapest, then by name, holds only active stocked shelves and misses none |
| `LedgerPlan.DefaultIsCheapest` | backend/app/services/fulfillment_service.py:201-212 | A remainder is booked against a cheapest active warehouse, and against none exactly when none is active |
| `LedgerPlan.PlanLineIsBest` | backend/app/services/fulfillment_service.py:122-165 | A planned line draws min(quantity, available) within every shelf, backorders exactly the rest in one row, and no other draw of as many units uses fewer warehouses |
| `LedgerPlan.PlanFromCovers` | backend/app/services/fulfillment_service.py:121-165 | A whole plan allocates every physical line in full and allocates nothing else |
| `LedgerEffects.PlanWrites` | backend/app/services/fulfillment_service.py:96-198 | Planning replaces the order's rows by a plan for every physical line, books what runs short at the cheapest active warehouse, and is refused if and only if something has shipped or nothing is active to wait at |
| `LedgerEffects.OpenWrites` | backend/app/services/order_service.py:85-116 | Opening stores the lines, not accepted, with their plan, for a new number and positive quantities only |
| `SplitTheorems.DeepestWinsOverCheapest` | backend/app/services/fulfillment_service.py:42-138 | A line some shelf covers is planned whole from the deepest; with shipping cost base + rate x units that is a cheapest covering shelf if and only if what each shallower or lower-rated covering shelf saves on the units is no more than what its base rate adds |
| `SplitTheorems.DearWarehouseChosen` | backend/app/services/fulfillment_service.py:79-138 | A concrete run: two warehouses cover an order, and it is planned from the deeper one at 12.00 instead of 1.20 |
| `SplitTheorems.DearWarehouseWinsTie` | backend/app/services/fulfillment_service.py:79-138 | A concrete run: equally deep, and planned where it costs 51.00 instead of 2.50, because the unit rate is no sort column |
| `SplitTheorems.OneWarehouseIff` | backend/app/services/fulfillment_service.py:121-138 | An order one warehouse could fill alone is planned from a single warehouse if and only if all its lines are deepest at the same one |
| `SplitTheorems.TwoLinesApart` | backend/app/services/fulfillment_service.py:121-138 | A concrete order either of two warehouses could fill, planned from both |
| `SplitTheorems.AcceptReservesAllIff` | backend/app/services/fulfillment_service.py:229-258 | Acceptance reserves every planned row of an order if and only if, on each shelf, its planned rows together ask for no more than is available |
| `SplitTheorems.SameUnitPromisedTwice` | backend/app/services/fulfillment_service.py:121-258 | A concrete run: two lines are planned on one unit, one is backordered at acceptance, and another warehouse keeps the unit that would have covered it |
| `SplitTheorems.AcceptKeepsOnePlannedIff` | backend/app/services/fulfillment_service.py:260-273 | Acceptance keeps one planned shipment per order and warehouse if and only if no row it reserves is at a warehouse that has one |
| `SplitTheorems.CallKeepsOnePlannedIff` | backend/app/services/fulfillment_service.py:96-609 | No other call ever opens a second one |
| `SplitTheorems.OnePlannedOnSuchRuns` | backend/app/services/fulfillment_service.py:96-609 | On every run without such an acceptance there is at most one planned shipment per order and warehouse |
| `SplitTheorems.SecondShipmentIsEmpty` | backend/app/services/fulfillment_service.py:260-598 | A concrete run (sweep before acceptance) with two planned shipments of one order from one warehouse, the second of which has nothing to ship once the first has gone |
| `LedgerWalk.WalkBalances` | backend/app/services/fulfillment_service.py:229-258 | Accepting, dispatching and sweeping each move the reserved count of every shelf by exactly what their allocations gained or lost, keep the CHECK constraints, and lower on-hand only on dispatch |
| `LedgerWalk.WalkShips` | backend/app/services/fulfillment_service.py:471-514 | Only a dispatch changes shipped units, by exactly the outstanding units of the rows it ships |
| `LedgerWalk.SweepIsMaximal` | backend/app/services/fulfillment_service.py:537-609 | After one sweep every allocation still backordered exceeds what its shelf has free |
| `LedgerCalls.SweepIsAFixpoint` | backend/app/services/fulfillment_service.py:537-609 | A second sweep straight after the first changes nothing at all |
| `LedgerCalls.ShipClearsTheShelf` | backend/app/services/fulfillment_service.py:454-534 | A dispatched shipment leaves nothing RESERVED for its order at its warehouse |
| `LedgerCalls.ShipNeverHitsTheChecks` | backend/app/services/fulfillment_service.py:481-502 | The clamp at zero and the stock CHECKs never bite on dispatch; what is available on each shelf does not move |
| `LedgerCalls.RestockKeepsValid` | backend/app/services/variant_service.py:274-297 | A restock keeps the whole ledger invariant: it never drops on-hand below what is reserved |
| `LedgerEffects.RestockWrites` | backend/app/services/variant_service.py:274-297 | A restock sets on-hand to the larger of the typed figure and what is reserved, keeps the reserved count and every other shelf; a new shelf starts with nothing reserved and cannot be negative |
| `LedgerCalls.WarehouseKeepsValid` | backend/app/services/catalog_service.py:440-458 | Adding, activating, deactivating or repricing a warehouse keeps the whole ledger invariant |
| `LedgerEffects.WarehouseSaved` | backend/app/services/catalog_service.py:440-458 | A saved warehouse takes its own place or the last one, and no other moves |
| `LedgerCalls.BilledFromIs` | backend/app/services/invoice_service.py:96-156 | One invoice run takes every shipment line with unbilled units, once, in order and for exactly the unbilled quantity |
| `LedgerCalls.SecondInvoiceIsEmpty` | backend/app/services/invoice_service.py:87-172 | An immediate second run issues nothing |
| `LedgerEffects.InvoiceWrites` | backend/app/services/invoice_service.py:87-172 | New invoice lines carry one number never used before, all of the order's shipment lines end billed in full, every other is untouched |
| `LedgerInvariant.PlanKeepsValid` | backend/app/services/fulfillment_service.py:96-198 | Replanning an order keeps the ledger invariant |
| `LedgerEffects.OverrideWrites` | backend/app/services/fulfillment_service.py:383-439 | A committed override leaves the other orders' rows and one row per typed one, with its line, warehouse and quantity, BACKORDERED if and only if it was asked to be and PLANNED otherwise; the order waits if and only if some row does |
| `LedgerEffects.OverrideCommitsIff` | backend/app/services/fulfillment_service.py:319-381 | An override goes through if and only if the order is open and unshipped, every row names a physical line, a known warehouse and a positive quantity, every line gets what was ordered and no shelf is drawn below what it has free |
| `LedgerEffects.OverrideIsReservable` | backend/app/services/fulfillment_service.py:356-434 | Its planned rows ask no shelf for more than it has free, so accepting it at once reserves them all |
| `LedgerEffects.OverrideRefusals` | backend/app/services/fulfillment_service.py:319-354 | The refusal is the first that applies: the order, then the rows in the order typed, then an uncovered line |
| `LedgerInvariant.OverrideKeepsValid` | backend/app/services/fulfillment_service.py:319-451 | An override keeps the ledger invariant |
| `LedgerCalls.AcceptKeepsValid` | backend/app/services/fulfillment_service.py:215-290 | Accepting a split keeps the ledger invariant, with a planned shipment wherever something is reserved |
| `LedgerEffects.AcceptWrites` | backend/app/services/fulfillment_service.py:215-290 | Acceptance happens once, moves only planned rows of its order to RESERVED or BACKORDERED, and opens exactly one planned shipment per warehouse it reserves at |
| `LedgerEffects.AcceptedStays` | backend/app/services/fulfillment_service.py:222-223 | An accepted order can be neither accepted again nor overridden |
| `LedgerCalls.ShipKeepsValid` | backend/app/services/fulfillment_service.py:454-534 | A dispatch keeps the ledger invariant |
| `LedgerEffects.ShipCommitsIff` | backend/app/services/fulfillment_service.py:454-534 | A dispatch goes through if and only if the shipment has not gone and some row is reserved for it |
| `LedgerEffects.ShipWrites` | backend/app/services/fulfillment_service.py:471-525 | Exactly the rows reserved for the shipment are shipped, each in full on a line of its own, and the shipment is out |
| `LedgerCalls.SweepKeepsValid` | backend/app/services/fulfillment_service.py:537-609 | A sweep keeps the ledger invariant, folding each reserved row into a planned shipment of its own order |
| `LedgerEffects.SweepWrites` | backend/app/services/fulfillment_service.py:556-604 | A sweep only turns BACKORDERED rows into RESERVED ones and leaves on-hand alone |
| `LedgerCalls.RunKeepsValid` | backend/app/services/fulfillment_service.py:96-609 | The ledger invariant holds after every run of open, plan, accept, override, ship, sweep, restock, invoice and warehouse update on any number of orders |
| `LedgerTheorems.ReservationLedger` | backend/app/models/inventory.py:69-96 | After any run, on every shelf: units held by RESERVED rows <= reserved <= on hand, nothing oversold, and no dispatch is refused by a CHECK |
| `LedgerTheorems.CallIsExactIff` | backend/app/services/fulfillment_service.py:215-609 | A committed call keeps held == reserved on every shelf if and only if it does not replace a plan that holds a RESERVED row |
| `LedgerTheorems.ExactOnCarefulRuns` | backend/app/services/fulfillment_service.py:215-609 | On runs where no plan holding reserved stock is replaced, held and reserved units are equal shelf by shelf |
| `LedgerTheorems.ReplacementIsExactIff` | backend/app/services/fulfillment_service.py:383-434 | Replacing a plan keeps the ledger exact if and only if the old plan held nothing: reserved rows are deleted without giving their units back |
| `LedgerTheorems.ReservedUnitLeaks` | backend/app/services/fulfillment_service.py:319-451 | A concrete run (sweep before acceptance, then an override) that leaves a unit reserved which no allocation holds |
| `LedgerTheorems.UnitConservation` | backend/app/models/fulfillment.py:231-262 | After any run, for every order line: billed <= dispatched == shipped by allocations <= allocated == ordered |
| `LedgerTheorems.BilledUnitsAreInvoiced` | backend/app/services/invoice_service.py:126-156 | Invoice lines and the quantity_invoiced counters count the same units of every order line |
| `LedgerTheorems.NothingBilledBeforeItShips` | backend/app/services/invoice_service.py:96-156 | Every invoice line bills, alone and in full, one shipment line of a shipment that has gone out |
| `LedgerTheorems.AcceptSettlesTheOrder` | backend/app/services/fulfillment_service.py:229-258 | After an acceptance every planned row of the order is reserved, or backordered and still more than its shelf has free |
| `LedgerTheorems.ReservedCanShip` | backend/app/services/fulfillment_service.py:260-273 | After any run every RESERVED row has a planned shipment of its order at its warehouse, and dispatching that shipment commits and ships the row in full |
| `LedgerTheorems.FulfilledIffEverythingLeft` | backend/app/services/fulfillment_service.py:304-316 | After any run an order with something to ship is FULFILLED if and only if every unit ordered on every physical line is on a dispatched shipment |
| `LedgerEffects.StatusAfterRuns` | backend/app/services/fulfillment_service.py:299-316 | After any run an order with rows is FULFILLED, PARTIALLY_SHIPPED, BACKORDER, RESERVED or SPLIT_PENDING exactly as its rows collectively say |
| `LedgerEffects.LedgerRefusals` | backend/app/services/fulfillment_service.py:215-486 | Why an acceptance, a dispatch or a restock is refused |
| `FulfillmentDesk.SplitLine` | backend/app/services/fulfillment_service.py:128-150 | The inner loop computes exactly the greedy draws of one line and what remains of it |
| `FulfillmentDesk.PlanLines` | backend/app/services/fulfillment_service.py:121-165 | The outer loop computes the whole plan, and says whether anything was backordered |
| `FulfillmentDesk.HoldPlanned` | backend/app/services/fulfillment_service.py:229-258 | The acceptance loop over rows and stock performs exactly the ledger pass of accepting |
| `FulfillmentDesk.DispatchReserved` | backend/app/services/fulfillment_service.py:471-514 | The dispatch loop performs exactly the ledger pass of dispatching |
| `FulfillmentDesk.ReserveBackorders` | backend/app/services/fulfillment_service.py:556-575 | The sweep loop performs exactly the ledger pass of sweeping |
| `FulfillmentDesk.FoldShipments` | backend/app/services/fulfillment_service.py:577-598 | Newly reserved rows end up in one planned shipment per order and warehouse, opened only where there is none |
| `FulfillmentDesk.CheckRows` | backend/app/services/fulfillment_service.py:337-354 | Finds the first bad row or uncovered line, and nothing when every line is supplied exactly |
| `FulfillmentDesk.CheckShelves` | backend/app/services/fulfillment_service.py:356-381 | Refuses exactly when the rows, summed, draw more from some shelf than it has free |
| `FulfillmentDesk.BillLines` | backend/app/services/invoice_service.py:96-156 | The billing loop marks and issues exactly the billable lines of the order |
| `FulfillmentDesk.FulfillmentService.Plan` | backend/app/services/fulfillment_service.py:96-198 | Updates the tables in place to the planned state, or refuses and changes nothing |
| `FulfillmentDesk.FulfillmentService.Open` | backend/app/services/order_service.py:85-116 | Opens and plans an order in one step, or refuses and changes nothing |
| `FulfillmentDesk.FulfillmentService.Accept` | backend/app/services/fulfillment_service.py:215-290 | Reserves, backorders and opens shipments in place, or refuses and changes nothing |
| `FulfillmentDesk.FulfillmentService.Dispatch` | backend/app/services/fulfillment_service.py:454-534 | Ships a shipment in place, or refuses and changes nothing |
| `FulfillmentDesk.FulfillmentService.Consolidate` | backend/app/services/fulfillment_service.py:537-609 | Sweeps all backorders in place and counts the merged rows |
| `FulfillmentDesk.FulfillmentService.UpsertStock` | backend/app/services/variant_service.py:274-297 | Restocks one shelf in place |
| `FulfillmentDesk.FulfillmentService.Configure` | backend/app/services/catalog_service.py:440-458 | Adds or changes a warehouse in place |
| `FulfillmentDesk.FulfillmentService.Invoice` | backend/app/services/invoice_service.py:87-172 | Bills an order in place; a number exactly when something new had shipped |
| `FulfillmentDesk.FulfillmentService.Override` | backend/app/services/fulfillment_service.py:319-451 | Replaces the plan in place, or refuses with the first reason the code checks and changes nothing |
| `FulfillmentDesk.FulfillmentService.Perform` | backend/app/services/fulfillment_service.py:96-609 | Any call, keeping the ledger invariant |
| `Calendar.AddDays` | backend/app/services/order_service.py:38-50 | Adding n days lands n day numbers later, on a real date |
| `Calendar.DayNumberOrders` | backend/app/services/order_service.py:38-57 | Calendar order and equality are day-number order and equality |
| `Calendar.CycleLength` | backend/app/services/order_service.py:31-57 | One cycle is a real, later date: 7, 28-31, 89-92 or 365-366 days on |
| `Calendar.AdvanceIsLater` | backend/app/services/order_service.py:38-57 | Any positive number of cycles ends strictly later, on a real date |
| `Calendar.RepeatedVersusOnce` | backend/app/services/order_service.py:38-57 | n single month-based cycles land in the month of one n-cycle advance, never later, at most 3 days earlier, and on the same date when the start day is at most 28 |
| `Calendar.NoDriftIff` | backend/app/services/order_service.py:38-57 | The two reckonings agree if and only if no month reached on the way is too short for the day the one long advance lands on |
| `Calendar.DriftHappens` | backend/app/services/order_service.py:52-57 | Three single months from 31 January 2027 reach 28 April, one advance of three reaches 30 April |
| `Subscriptions.IndexNeverHit` | backend/app/models/billing.py:355-374 | In a reachable state no recorded invoice starts at the current period start, so the unique index never refuses a bill |
| `Subscriptions.RunKeepsValid` | backend/app/services/invoice_service.py:175-325 | Dates, links and money stay consistent over every run of bill, pause, resume, change and cancel |
| `SubscriptionTheorems.BilledPeriodsTileTime` | backend/app/services/invoice_service.py:184-267 | The first billed period starts at start_date, every later one where the one before ended, none is billed before it begins and none repeats |
| `SubscriptionTheorems.BilledExactlyWhen` | backend/app/services/invoice_service.py:286-325 | A due run bills exactly the active subscriptions whose date has come, whose total is not negative and whose next period has a date |
| `SubscriptionTheorems.BillingSettles` | backend/app/services/invoice_service.py:286-325 | Repeating the run on one date reaches a no-op after at most one repetition per day in arrears |
| `SubscriptionEnding.OneMoreBillAtMost` | backend/app/services/subscription_service.py:224-265 | A subscription set to end with its period is billed at most once more, whatever else is called, and never after it has ended |
| `SubscriptionEnding.EndsIffBilledAgain` | backend/app/services/subscription_service.py:224-265 | Told to end with its period, an active subscription has ended after any further calls, short of an immediate cancellation, if and only if one further bill has gone through |
| `SubscriptionEnding.DailyRunsEndIff` | backend/app/services/invoice_service.py:286-325 | Left to daily runs on any dates it ends if and only if one of them is due, its total is not negative and the next period has a date; otherwise nothing ever changes |
| `SubscriptionEnding.UnbillableNeverEnds` | backend/app/services/subscription_service.py:224-265 | While its pending credit exceeds the charge, or the next period has no date, no call but a change of quantity or an immediate cancellation ever ends it or bills it |
| `SubscriptionEnding.CreditKeepsItOpen` | backend/app/services/subscription_service.py:224-265 | A concrete run: ten licences billed, cut to one and cancelled at period end leave 279.00 of credit against a charge of 31.00, and the subscription never ends |
| `SubscriptionEnding.EndingStillBillsIff` | backend/app/services/subscription_service.py:224-265 | That further bill comes if and only if its date has come, its total is not negative and the next period has a date, exactly as if the subscription had not been cancelled |
| `SubscriptionEnding.PaidThenCancelledStillBilled` | backend/app/services/subscription_service.py:224-265 | For every start, interval, quantity and price with dates to go on to: bill, cancel at period end and run again on the day it ends, and a second period has been billed |
| `SubscriptionEnding.BilledForFebruary` | backend/app/services/subscription_service.py:224-265 | A concrete run: cancelled in January with January paid, and February is billed |
| `SubscriptionTheorems.BillConserves` | backend/app/services/invoice_service.py:202-267 | A bill adds exactly its rounded base charge to invoiced plus pending; a refused one changes nothing |
| `SubscriptionTheorems.ProrationsBilledOnce` | backend/app/services/invoice_service.py:226-250 | Over any run invoiced plus pending equals base charges plus recorded amounts, each event is carried by at most one line of one invoice, and credit notes total the credits |
| `SubscriptionTheorems.DowngradeCreditedTwiceIff` | backend/app/services/subscription_service.py:90-163 | A change and the bill after it raise the credit notes and lower the invoice, by the same amount, if and only if the change gives up more than half a cent of the remaining period |
| `SubscriptionTheorems.OneLicenceFewer` | backend/app/services/subscription_service.py:90-163 | A concrete run: ten licences become nine, and 31.00 are on a credit note and off the invoice |
| `SubscriptionTheorems.DeltasAreQuantityDays` | backend/app/services/subscription_service.py:74-87 | Unrounded deltas of changes on non-decreasing dates sum to price per day times the days' extra quantity |
| `SubscriptionTheorems.CentsWithinHalfEach` | backend/app/services/subscription_service.py:74-114 | n recorded cent amounts differ from the exact total by at most n half-cents |
| `SubscriptionTheorems.EventsRecordCents` | backend/app/services/subscription_service.py:107-135 | What the calls write to the event history is exactly the sum of those rounded deltas |
| `SubscriptionTheorems.ReversalCancels` | backend/app/services/subscription_service.py:90-163 | A change and its reversal on one date cancel to the cent |
| `SubscriptionEffects.CancelNowWrites` | backend/app/services/subscription_service.py:252-295 | An immediate cancellation refunds price x every unit x days left / days in the period, rounded half-even and nothing from the end on, in one event and, when positive, one credit note |
| `SubscriptionEffects.CancelledInJanuary` | backend/app/services/subscription_service.py:252-295 | A concrete cancellation: ten licences, 21 of 31 days left, 210.00 |
| `SubscriptionEffects.RefundIsForPaidDaysIff` | backend/app/services/subscription_service.py:237-241 | In every reachable state no refunded day was ever billed; the refund is for the paid days not received if and only if the current period is over, when there are none |
| `SubscriptionEffects.RefundedDays` | backend/app/services/subscription_service.py:74-87 | The days the refund counts are those from today on, inside the period |
| `SubscriptionEffects.FebruaryRefunded` | backend/app/services/subscription_service.py:224-295 | A concrete run: January billed and cancelled on the 11th, and the whole of February is credited |
| `SubscriptionEffects.CancelLaterWrites` | backend/app/services/subscription_service.py:242-251 | A cancellation at period end only leaves its mark and an event |
| `SubscriptionEffects.ChangeWrites` | backend/app/services/subscription_service.py:90-145 | A change is accepted exactly for an active contract and a new quantity of at least one; its event is the prorated difference to the half-even cent, with a credit note when negative |
| `SubscriptionEffects.PauseAndResumeWrite` | backend/app/services/subscription_service.py:166-221 | Pausing clears the billing date; resuming sets it to the later of today and the period start |
| `SubscriptionEffects.BillWrites` | backend/app/services/invoice_service.py:184-283 | A bill writes one invoice for the current period at price x quantity to the cent plus the amounts it lists, which are those waiting, links them, and moves the contract to the next period |
| `SubscriptionEffects.SubscriptionRefusals` | backend/app/services/subscription_service.py:90-238 | Why a change, a pause, a resumption or a cancellation is refused |
| `SubscriptionEffects.ChargedAsUsedIff` | backend/app/services/subscription_service.py:98-109 | After changes in date order a period is charged for the quantity in force day by day if and only if its quantity ends as it began; otherwise it is off by the difference for the whole period |
| `SubscriptionEffects.BillAfterChanges` | backend/app/services/invoice_service.py:202-250 | The bill after n changes adds the price of those charged days, give or take n + 1 half-cents |
| `SubscriptionEffects.LicenceAdded` | backend/app/services/subscription_service.py:90-145 | A concrete change: 331 licence-days used, 362 charged |
| `SubscriptionDesk.SweepPending` | backend/app/services/invoice_service.py:226-250 | The sweep loop links and lists exactly the pending events and adds exactly their amounts |
| `SubscriptionDesk.SubscriptionRow.constructor` | backend/app/services/order_service.py:182-214 | A confirmed recurring line opens a contract that satisfies the billing invariant |
| `SubscriptionDesk.SubscriptionRow.Change` | backend/app/services/subscription_service.py:90-163 | Changes the quantity in place with its event and credit, or refuses and changes nothing |
| `SubscriptionDesk.SubscriptionRow.PauseBilling` | backend/app/services/subscription_service.py:166-198 | Pauses in place and clears the billing date, or refuses |
| `SubscriptionDesk.SubscriptionRow.ResumeBilling` | backend/app/services/subscription_service.py:201-221 | Resumes in place with a billing date not before the period, or refuses |
| `SubscriptionDesk.SubscriptionRow.CancelContract` | backend/app/services/subscription_service.py:224-302 | Cancels now or at period end in place, or refuses |
| `SubscriptionDesk.SubscriptionRow.BillPeriod` | backend/app/services/invoice_service.py:175-283 | Bills one period in place, or refuses and leaves no trace |
| `SubscriptionDesk.SubscriptionRow.BillWhenDue` | backend/app/services/invoice_service.py:286-325 | The daily run's filter and bill for one row |
| `SubscriptionDesk.SubscriptionRow.Perform` | backend/app/services/invoice_service.py:175-325 | Any call: its effect when it commits, nothing when it is refused |
| `SubscriptionDesk.BillDueRows` | backend/app/services/invoice_service.py:286-325 | With every lock free and rows readable after a rollback, each row ends as its own bill or refusal leaves it, and the count is the number billed |
| `Rounding.HalfUpIsNearest` | backend/app/services/quotation_service.py:43-48 | ROUND_HALF_UP moves an exact amount by at most half a unit |
| `Rounding.HalfEvenIsNearest` | backend/app/services/invoice_service.py:75-76 | round(Decimal, 2) moves an exact amount by at most half a unit |
| `Rounding.RoundingIsUnique` | backend/app/services/quotation_service.py:43-48 | Each mode is the nearest whole number with its own tie rule, and nothing else is |
| `Rounding.HalfEvenIsOdd` | backend/app/services/subscription_service.py:74-87 | The rounding of a negated amount is the negated rounding |
| `Rounding.NegativeIff` | backend/app/services/subscription_service.py:74-87 | An amount rounds below zero exactly when it is under minus half a unit |
| `InvoiceMoney.WriteInvoice` | backend/app/services/invoice_service.py:75-156 | Writes one line per charge with each column rounded from the charge's own price, discount, tax and quantity; the total equals subtotal plus tax exactly and is within n cents of the n line totals |
| `InvoiceMoney.LineIsRounded` | backend/app/services/invoice_service.py:126-147 | A line's unit price, subtotal, tax and total are price x (1 - discount), times quantity, times the tax rate, and their sum, each rounded half-even to the cent |
| `InvoiceMoney.PiecesDifferByHalfCents` | backend/app/services/invoice_service.py:126-150 | Billing units in k pieces differs from billing them at once by at most (k + 1) / 2 cents before tax |
| `InvoiceMoney.BilledMatchesQuoted` | backend/app/services/quotation_service.py:361-384 | A quoted line billed in any k pieces comes within (k + 1) / 2 cents of the net the quotation showed |
| `InvoiceMoney.BilledMissesByRepricing` | backend/app/services/invoice_service.py:126-150 | The same for pieces billed at different prices, up to exactly what the prices added |
| `InvoiceMoney.BilledTaxMatchesQuoted` | backend/app/services/quotation_service.py:361-384 | The taxes and the totals of k pieces come within (k + 1) / 2 cents of the tax and the total the quotation showed |
| `QuoteToCash.FullyBilledPieces` | backend/app/services/invoice_service.py:96-156 | After any run of the ledger, a quoted line all of whose units are billed has one invoice line per shipment line, and their quantities add up to what was ordered |
| `QuoteToCash.FullyBilledMissesByRepricing` | backend/app/services/invoice_service.py:96-156 | Whatever prices its k invoice lines were written at, their charges miss the quoted net by exactly what the repricing of each added, give or take (k + 1) / 2 cents |
| `QuoteToCash.FullyBilledMatchesQuoted` | backend/app/services/invoice_service.py:96-156 | When the price did not move between the invoices, the k charges come within (k + 1) / 2 cents of the quoted net |
| `QuoteToCash.FullyBilledTaxMatchesQuoted` | backend/app/services/invoice_service.py:96-156 | So do the taxes and totals of a fully billed line, over every run of the ledger |
| `QuoteToCash.AllShippedBilled` | backend/app/services/invoice_service.py:96-156 | When the billed counters of a line cover what was dispatched, each of its shipment lines has an invoice line |
| `QuoteToCash.PiecesAddUp` | backend/app/services/invoice_service.py:126-150 | The quantities on a line's invoice lines add up to the units billed |
| `InvoiceMoney.UnitPriceTimesQuantity` | backend/app/services/invoice_service.py:127-146 | The rounded unit price printed on a line times its quantity misses the subtotal by at most (quantity + 1) / 2 cents |
| `Scoring.MeanBetween` | backend/app/services/quotation_service.py:386-404 | The weighted mean overrun lies between zero and the worst line, so compliant lines cannot push it outside |
| `Scoring.ScoreBounds` | backend/app/services/quotation_service.py:402-405 | min(100, 8 x worst) <= score <= min(100, 13 x worst) |
| `Scoring.StoredZeroIffCompliant` | backend/app/services/quotation_service.py:400-410 | The stored two-decimal score is zero exactly when no line is over its ceiling, and at least 0.08 otherwise |
| `Scoring.TotalWithinTwoCents` | backend/app/services/quotation_service.py:361-403 | The stored total is within two cents of subtotal - discount + tax |
| `GovernanceEffects.RecalculateWrites` | backend/app/services/quotation_service.py:319-417 | Every stored line carries the catalog's price, cost, tax and ceiling and its net, tax and total to the half-up cent; the header is the sum of the lines' exact values to the cent, and the score is min(100, 8 x worst + 5 x weighted mean) with its band |
| `Scoring.ResolveRuleIsFirst` | backend/app/services/approval_service.py:49-64 | The rule found is the first active one whose half-open band holds the score; none is found exactly when none does |
| `Scoring.AutoApprovalIsExact` | backend/app/core/seed.py:285-292 | With the seeded rules some rule always matches, and a submission needs nobody if and only if no line exceeds its ceiling, if and only if the band is NONE |
| `Scoring.FinanceIffHigh` | backend/app/services/quotation_service.py:56-68 | Finance is asked exactly when the band is HIGH, if and only if the score is outside [44.995, 45) |
| `Scoring.FinanceAskedAtMedium` | backend/app/services/quotation_service.py:56-68 | A concrete quotation whose band is MEDIUM and whose chain includes Finance |
| `GovernanceInvariant.DecidedRoundInShape` | backend/app/services/approval_service.py:246-336 | One decision consumes the first pending step and leaves approved* pending+, approved+, approved* returned skipped* or approved* rejected skipped* |
| `GovernanceEffects.DecideWrites` | backend/app/services/approval_service.py:246-336 | A verdict needs a pending round, the waiting role or an admin, and a reason unless it approves; it decides one step, skips the rest unless it approves, and moves the quotation when it is final |
| `GovernanceTheorems.ChainShapesHold` | backend/app/services/approval_service.py:80-172 | After any run rounds are numbered 1..current_round and every chain has one of the five shapes, each step decided by a holder of its role or an admin |
| `GovernanceTheorems.HistoryIsFrozen` | backend/app/services/approval_service.py:112-158 | A round keeps its number, roles, score and frozen lines for ever, and once decided nothing about it changes |
| `GovernanceTheorems.AtMostOneDecisionPerStep` | backend/app/services/approval_service.py:246-325 | Over any run the decisions taken on a round equal its decided steps, so an n-step round takes at most n |
| `GovernanceTheorems.ApprovalMovesTheChain` | backend/app/services/approval_service.py:265-292 | An approval goes through exactly for a holder of the waiting role or an admin, approves the deal if and only if that step was the last, and otherwise hands over to the next |
| `GovernanceInvariant.SubmitKeepsAgreement` | backend/app/services/quotation_service.py:560-609 | A submission, accepted or refused, keeps rounds, status and frozen discounts in agreement |
| `GovernanceInvariant.OtherCallsAgree` | backend/app/services/approval_service.py:246-325 | Every call but the resolution of a counter keeps that agreement in any state |
| `GovernanceInvariant.AcceptAgreesIff` | backend/app/services/negotiation_service.py:142-199 | Accepting a counter keeps the agreement if and only if no round is pending and no order exists |
| `GovernanceInvariant.DeclineAgreesIff` | backend/app/services/negotiation_service.py:202-238 | Declining a counter keeps it if and only if the quotation is approved or in negotiation |
| `GovernanceTheorems.CallAgreesIff` | backend/app/services/negotiation_service.py:87-238 | A call loses the agreement if and only if it resolves a counter at a status its branch does not check for |
| `GovernanceTheorems.GovernanceHolds` | backend/app/api/endpoints/portal.py:155-159 | On every run that opens a counter only with none open: only the newest round can be pending, exactly while PENDING_APPROVAL; APPROVED, NEGOTIATION and CONFIRMED mean it is approved; outside DRAFT every discount equals its frozen one; NEGOTIATION means exactly one open counter |
| `GovernanceTheorems.SecondCounterSkipsApproval` | backend/app/services/negotiation_service.py:142-238 | With two counters open, whenever accepting the first sends the deal back for approval, declining the second lets it be confirmed with that round untouched |
| `GovernanceTheorems.UnapprovedDealOrdered` | backend/app/api/endpoints/portal.py:204-237 | A concrete run from an empty draft that ends CONFIRMED with its newest round still pending |
| `GovernanceTheorems.SubmitAutoApprovesIffCompliant` | backend/app/services/approval_service.py:80-172 | A committed submission under the seeded rules is approved on the spot if and only if no frozen line is over its ceiling, and pending otherwise |
| `GovernanceTheorems.ApprovedIffWithinBothCeilings` | backend/app/services/quotation_service.py:340-352 | A committed submission is approved on the spot if and only if every line's total discount is inside its tier's ceiling and its category's, if it has one |
| `GovernanceEffects.FallbackNeverFailsOpen` | backend/app/services/approval_service.py:67-77 | Where no active rule holds the score, whatever the table: approved on the spot if and only if every line is inside both ceilings, manager and finance from 45 points on, the manager for any other excess |
| `GovernanceEffects.SubmitWrites` | backend/app/services/quotation_service.py:560-609 | A submission prices the quotation, then opens the next round: the roles of the first matching rule or of the band, all waiting, lines and header frozen |
| `GovernanceEffects.AddWrites` | backend/app/services/quotation_service.py:420-502 | Adding stores the typed line last and prices the draft, or is refused for the first reason that applies |
| `GovernanceEffects.UpdateWrites` | backend/app/services/quotation_service.py:505-533 | Updating changes what was typed of that line and nothing of any other |
| `GovernanceEffects.RemoveWrites` | backend/app/services/quotation_service.py:536-545 | Removing drops that line and keeps the order of the rest |
| `GovernanceEffects.OrderDiscountWrites` | backend/app/services/quotation_service.py:548-557 | The order discount is stored and the draft priced under it |
| `GovernanceEffects.CounterWrites` | backend/app/services/negotiation_service.py:87-139 | A counter-offer is stored open with what it asks |
| `GovernanceEffects.AcceptWrites` | backend/app/services/negotiation_service.py:142-199 | Accepting makes the counter the order discount, prices under it and opens a round on the result |
| `GovernanceEffects.DeclineAndConfirmWrite` | backend/app/services/negotiation_service.py:202-238 | Declining resolves that request and approves; confirming orders once |
| `GovernanceSnapshots.PoliteRunPriced` | backend/app/services/quotation_service.py:319-417 | Outside a draft, every line's amounts and the header's totals are those of the price, cost, tax and ceiling stored on the lines, over every run with one counter at a time |
| `GovernanceSnapshots.LateSubmitMovesIff` | backend/app/services/quotation_service.py:560-571 | Submitting what is no draft is refused with status, rounds and discounts unchanged; it leaves the quotation as it was if and only if every line's stored price, cost, tax and ceiling are still the catalog's |
| `GovernanceSnapshots.LateSubmitAfterRuns` | backend/app/services/quotation_service.py:560-571 | The same after every run with one counter at a time |
| `GovernanceSnapshots.ApprovedPriceMoves` | backend/app/services/quotation_service.py:560-571 | A concrete quotation approved at 1.00 whose refused submission stores 2.00, beside a round that froze 1.00 |
| `GovernanceDesk.RepriceLines` | backend/app/services/quotation_service.py:334-398 | The recalculation loop reprices every line and accumulates exactly the sums of their terms |
| `GovernanceDesk.FirstMatch` | backend/app/services/approval_service.py:57-64 | The loop over active rules finds the first match |
| `GovernanceDesk.FirstPending` | backend/app/services/approval_service.py:205-214 | The first step still pending, or none |
| `GovernanceDesk.SkipPending` | backend/app/services/approval_service.py:328-336 | Marks every step still pending as skipped and touches no other |
| `GovernanceDesk.QuotationService.Reprice` | backend/app/services/quotation_service.py:319-417 | Recalculates and stores a quotation in place, or writes nothing when a discount breaks its CHECK |
| `GovernanceDesk.QuotationService.Start` | backend/app/services/approval_service.py:80-172 | Opens the next round in place |
| `GovernanceDesk.QuotationService.Add` | backend/app/services/quotation_service.py:420-502 | Adds a line to a draft in place, or refuses and changes nothing |
| `GovernanceDesk.QuotationService.Update` | backend/app/services/quotation_service.py:505-533 | Edits a line of a draft in place; the edit stays when the recalculation after it fails |
| `GovernanceDesk.QuotationService.Remove` | backend/app/services/quotation_service.py:536-545 | Removes a line of a draft in place |
| `GovernanceDesk.QuotationService.SetDiscount` | backend/app/services/quotation_service.py:548-557 | Sets a draft's order discount in place; it stays when the recalculation after it fails |
| `GovernanceDesk.QuotationService.ReloadLines` | backend/app/services/quotation_service.py:223-258 | Recalculates a draft in place |
| `GovernanceDesk.QuotationService.SubmitForApproval` | backend/app/services/quotation_service.py:560-609 | Recalculates first and refuses afterwards |
| `GovernanceDesk.QuotationService.Rule` | backend/app/services/approval_service.py:246-325 | Records one verdict in place, or refuses for the first reason the code checks |
| `GovernanceDesk.QuotationService.Counter` | backend/app/services/negotiation_service.py:87-139 | Records a counter-offer in place, or refuses |
| `GovernanceDesk.QuotationService.Accept` | backend/app/services/negotiation_service.py:142-199 | Applies a counter and opens a round in place, or rolls everything back |
| `GovernanceDesk.QuotationService.Decline` | backend/app/services/negotiation_service.py:202-238 | Declines a counter and sets the status to approved in place |
| `GovernanceDesk.QuotationService.ConfirmOrder` | backend/app/services/order_service.py:64-84 | Confirms an approved quotation once |
| `GovernanceDesk.QuotationService.Perform` | backend/app/services/negotiation_service.py:33-238 | Any call, keeping the governance invariant when counters come one at a time |
| `Confirmation.ExactlyOnce` | backend/app/services/order_service.py:64-136 | In every interleaving, with expiries, crashes and stolen releases, at most one transaction commits; it leaves exactly one fulfillment, one sales record per line and one subscription per recurring line, and whoever is told the order exists is told so after it was written |
| `Confirmation.OnlyApprovedIsOrdered` | backend/app/services/order_service.py:64-82 | In every interleaving a quotation that is neither approved nor confirmed stays as it is and whoever is answered is told so |
| `Confirmation.CommitTells` | backend/app/services/order_service.py:92-127 | A commit goes through or is refused whole by UNIQUE, and its caller is told which |
| `Confirmation.AloneCreates` | backend/app/services/order_service.py:64-136 | An undisturbed call writes the whole order, gives the key back and is told it created it |
| `Confirmation.LaterCallFinds` | backend/app/services/order_service.py:72-90 | Once the order exists a call finds it, before or inside the lock, and writes nothing |
| `Confirmation.FanOutIsExact` | backend/app/services/order_service.py:98-103 | The fan-out names every line once in the sales records and every recurring line once in the subscriptions |
| `Confirmation.WriteOrder` | backend/app/services/order_service.py:98-103 | The fan-out loop writes exactly those rows |
| `Confirmation.LockSufficesWhileTheKeyLasts` | backend/app/core/cache.py:122-140 | From an untouched order, in every schedule in which the key expires only while no live worker is inside: one worker at a time is inside, at most one transaction commits, it leaves exactly the order and UNIQUE never fires, constraint or not |
| `Confirmation.ExpiryAdmitsTwoIff` | backend/app/core/cache.py:122-140 | In any state with a caller at the lock, an expiry lets two workers in together if and only if somebody is inside |
| `Confirmation.ExpiryRecovers` | backend/app/core/cache.py:122-140 | A holder that crashes leaves its key behind; once that has expired another call writes the whole order |
| `Confirmation.NeitherSuffices` | backend/app/core/cache.py:122-140 | A concrete schedule in which the key expires and two workers are inside at once: one order with the UNIQUE constraint, two without |
| `CacheProtocol.FreshAfterBump` | backend/app/core/cache.py:47-106 | Under any interleaving a read begun after a bump that found the counter returns nothing whose loader began before the bump, and nothing older than the writes committed before it |
| `CacheProtocol.ReadLoadsAndStores` | backend/app/core/cache.py:76-106 | An undisturbed read that misses returns the database's current data and files it where the next read finds it |
| `CacheProtocol.ReadHits` | backend/app/core/cache.py:76-106 | A read that finds its key returns what was stored |
| `CacheProtocol.CounterStays` | backend/app/core/cache.py:56-68 | Once written the counter stays and never goes back |
| `CacheProtocol.ReadKeepsItsGeneration` | backend/app/core/cache.py:76-106 | A read goes on with the generation it read first, whatever the counter says by then |
| `CacheProtocol.FailureEndsTheRead` | backend/app/core/cache.py:76-106 | A loader that fails stores nothing and its read never returns a value |
| `CacheProtocol.BumpMovesIff` | backend/app/core/cache.py:47-68 | A bump moves readers to another generation if and only if the counter exists |
| `CacheProtocol.FirstBumpInvalidatesNothing` | backend/app/core/cache.py:47-106 | With the counter missing, a read begun after a committed write and its bump still returns the entry loaded before them |
| `CacheGap.StaleIffFiledInTheGap` | backend/app/services/approval_service.py:308-309 | When a writer bumps first and commits afterwards, the next undisturbed read misses the write if and only if its key was filed between the two |
| `CacheGap.ReadInTheGapGoesStale` | backend/app/services/approval_service.py:308-309 | Any one read that runs between the two files data that a later read of the same key still gets |
| `CacheGap.LateStoreGoesStale` | backend/app/core/cache.py:76-106 | A read that loaded between the two and stores after the commit leaves its data to every later read of the key |
| `CacheGap.QuietGapIsFresh` | backend/app/api/endpoints/approvals.py:222-234 | When nothing is loaded for the new generation between the two, every read begun after the bump sees the write, under any interleaving |
| `PriceMatrix.StoredIsNearest` | backend/app/services/pricing_service.py:27-59 | A stored price is the nearest ten-thousandth to base price x (100% - tier discount) / rate, the base currency included |
| `PriceMatrix.RebuildAllIsValid` | backend/app/services/pricing_service.py:62-142 | A full rebuild makes the table equal its formula and complete for every variant, whatever currency, tier or percentage changed before it |
| `PriceMatrix.PartialRebuildIsValid` | backend/app/services/variant_service.py:255-271 | Rebuilding some variants after changing only their base prices keeps every other row right |
| `PriceMatrix.MatrixEqualsFormula` | backend/app/services/catalog_service.py:66-223 | After every run of currency, tier, variant and matrix-save calls each row names live parts and equals its formula, a variant has all its rows or none, and a saved one has them all |
| `PriceMatrix.SaveIsKeptIff` | backend/app/services/variant_service.py:205-271 | What an accepted save types is kept and priced for every tier and currency if and only if a base currency and a tier exist; otherwise the call answers normally and changes nothing |
| `CatalogEffects.RebuildWrites` | backend/app/services/pricing_service.py:62-142 | A rebuild leaves exactly the live cells of the named variants, each the half-up ten-thousandth of base price x (100% - tier) / rate, and every other row as it was |
| `CatalogEffects.CurrencyWrites` | backend/app/services/catalog_service.py:66-103 | A new or changed rate is stored as typed and everything priced from it |
| `CatalogEffects.CurrencyDeletes` | backend/app/services/catalog_service.py:106-130 | A currency goes exactly when it is not the base, nothing is priced in it and nothing quoted |
| `CatalogEffects.TierWrites` | backend/app/services/catalog_service.py:160-190 | A new or changed percentage is stored as typed and everything priced from it |
| `CatalogEffects.TierDeletes` | backend/app/services/catalog_service.py:193-223 | A tier goes with its own prices and no others |
| `CatalogEffects.VariantWrites` | backend/app/services/variant_service.py:171-187 | A variant starts unpriced; a dropped one takes its own prices and no others |
| `CatalogEffects.SaveWrites` | backend/app/services/variant_service.py:205-271 | An accepted save stores the last price typed for each variant and prices those variants from it, nothing else |
| `CatalogEffects.SaveRefusedFor` | backend/app/services/variant_service.py:236-253 | A save is refused for the first row that is not fine, with the first thing wrong with it |
| `CatalogEffects.CatalogRefusals` | backend/app/services/catalog_service.py:66-223 | Why a currency or tier call is refused |
| `CatalogDesk.RebuildRows` | backend/app/services/pricing_service.py:62-142 | The nested loops write exactly the cells of the named variants and drop exactly their dead rows |
| `CatalogDesk.WriteVariant` | backend/app/services/pricing_service.py:104-129 | The two inner loops write one variant's cells and no other |
| `CatalogDesk.ValidateRows` | backend/app/services/variant_service.py:236-253 | The first row the validation refuses, and why |
| `CatalogDesk.CatalogService.AddCurrency` | backend/app/services/catalog_service.py:66-82 | Creates and prices a currency in place, or refuses |
| `CatalogDesk.CatalogService.SetRate` | backend/app/services/catalog_service.py:85-103 | Changes a rate and reprices in place; the base rate only to 1 |
| `CatalogDesk.CatalogService.RemoveCurrency` | backend/app/services/catalog_service.py:106-130 | Deletes a currency nothing is priced or quoted in, or refuses |
| `CatalogDesk.CatalogService.AddTier` | backend/app/services/catalog_service.py:160-171 | Creates and prices a tier in place, or refuses |
| `CatalogDesk.CatalogService.SetTier` | backend/app/services/catalog_service.py:174-190 | Changes a tier's percentage and reprices in place, or refuses |
| `CatalogDesk.CatalogService.RemoveTier` | backend/app/services/catalog_service.py:193-223 | Deletes an unused tier with its prices, or refuses |
| `CatalogDesk.CatalogService.Save` | backend/app/services/variant_service.py:205-271 | Saves the typed matrix in place, or refuses; uncommitted when there is nothing to rebuild |
| `CatalogDesk.CatalogService.Perform` | backend/app/services/catalog_service.py:66-223 | Any call, keeping the price table equal to its formula |
| `Skus.CandidatesDiffer` | backend/app/services/variant_service.py:36-56 | Candidates numbered from 2 on differ, even after truncation to 64 characters |
| `Skus.FirstCandidateRepeatsIff` | backend/app/services/variant_service.py:36-56 | The unnumbered first candidate equals the n-th if and only if the base fills 64 characters and ends in "-n" there |
| `Skus.UniqueSkuIsFree` | backend/app/services/variant_service.py:36-56 | The search ends within two tries more than there are taken SKUs, with a free SKU of at most 64 characters (while fewer than 10^63 are taken) |
| `Skus.FirstFree` | backend/app/services/variant_service.py:36-56 | The number found is the first whose candidate is free; the search terminates by pigeonhole |
| `Skus.FindSku` | backend/app/services/variant_service.py:36-56 | The loop finds that candidate |
| `Skus.SlugIsClean` | backend/app/services/variant_service.py:27-29 | A slug is never empty: upper-case letters and digits with single dashes between them |
| `VariantEffects.SlugIsWords` | backend/app/services/variant_service.py:27-29 | A slug is the upper-cased words of the text with single dashes between, or ITEM without any |
| `VariantEffects.SkuAskedFor` | backend/app/services/variant_service.py:58-66 | The SKU asked for is the product's slug and each value's, dashes between |
| `VariantEffects.UniqueSkuIsGiven` | backend/app/services/variant_service.py:36-56 | The SKU given is the one asked for when free, and begins with it while a number fits |
| `Variants.CartesianIsAll` | backend/app/services/variant_service.py:171-172 | The combinations are exactly the choices of one value per axis |
| `Variants.CartesianDistinct` | backend/app/services/variant_service.py:171-172 | No combination repeats, and there are as many as the axes' sizes multiply to |
| `VariantEffects.CombinationsInOrder` | backend/app/services/variant_service.py:171-172 | The last axis varies fastest |
| `Variants.ZipInjective` | backend/app/services/variant_service.py:171-173 | Different combinations are different options payloads |
| `Variants.GenerateIsExact` | backend/app/services/variant_service.py:124-198 | Exactly one variant per combination, earlier variants but the default untouched and in place, nothing added but missing combinations, all SKUs distinct |
| `Variants.GenerateIsIdempotent` | backend/app/services/variant_service.py:124-198 | Run again, generation adds nothing |
| `VariantEffects.GenerationWrites` | backend/app/services/variant_service.py:124-198 | Every added variant is made for a combination no earlier row has, with its name, options and SKU; without axes only the default row is ensured |
| `VariantEffects.NewVariantsInOrder` | backend/app/services/variant_service.py:171-187 | New variants come in the order of their combinations |
| `VariantEffects.CreateWrites` | backend/app/services/catalog_service.py:328-342 | A new product has its title, its cleaned axes and its generated variants, or is refused for the first reason that applies |
| `VariantEffects.SetAxesWrites` | backend/app/services/variant_service.py:69-121 | Rewriting the axes keeps title and rows and adds the default row where no variant exists |
| `VariantEffects.GenerateWrites` | backend/app/services/variant_service.py:124-198 | Generating keeps title and axes, and is stopped by a default row in use that would have to go |
| `VariantNames.GenerateRefusedIff` | backend/app/models/catalog.py:255-257 | Generate Variants on any product of a reachable catalog breaks UNIQUE(product_id, name) if and only if two missing combinations read the same, one reads like a row that stays, or the default row finds its name taken, unless RESTRICT stops it first |
| `VariantNames.CreateRefusedIff` | backend/app/models/catalog.py:255-257 | Creating a product breaks it if and only if two of its combinations read the same |
| `VariantNames.SetAxesRefusedIff` | backend/app/services/variant_service.py:99-121 | Rewriting the axes breaks it if and only if the product gets a default row and a variant called "Default" has its name |
| `VariantNames.RenamedAxisClashes` | backend/app/services/variant_service.py:69-187 | Renaming the axis of a one-variant product and generating again always aborts |
| `VariantNames.RedByAnotherName` | backend/app/services/variant_service.py:69-187 | A concrete product: variant "Red" of "Color", renamed to "Colour" |
| `VariantNames.DefaultByName` | backend/app/services/variant_service.py:69-121 | A concrete product whose variant "Default" stops the default row |
| `VariantNames.SlashesCollide` | backend/app/services/variant_service.py:32-33 | A concrete product whose "a / b" with "c" reads like its "a" with "b / c" |
| `VariantNames.SlashFreeCreates` | backend/app/services/variant_service.py:32-33 | Creating a product whose values hold no slash never breaks it |
| `VariantNames.SlashFreeNamesDiffer` | backend/app/services/variant_service.py:32-33 | Values without a slash cannot collide that way |
| `Variants.CleanedIsDistinct` | backend/app/services/variant_service.py:81-96 | The values kept for an axis are the stripped non-blank ones, each once |
| `VariantEffects.CleanedInOrder` | backend/app/services/variant_service.py:85-96 | Values keep the order they first appear in |
| `VariantEffects.StripIs` | backend/app/services/variant_service.py:81-96 | Stripping takes blanks off both ends and nothing else |
| `Variants.SkusStayDistinct` | backend/app/services/variant_service.py:36-198 | After any run the SKUs of the whole catalog are distinct, and so are the options and names within a product |
| `VariantDesk.MintRows` | backend/app/services/variant_service.py:171-187 | The generation loop, with its options index and taken SKUs, adds exactly the missing combinations |
| `VariantDesk.CleanValues` | backend/app/services/variant_service.py:85-96 | The attribute loop keeps exactly the cleaned values |
| `VariantDesk.DropStray` | backend/app/services/variant_service.py:162-169 | Deletes the option-less default row and nothing else |
| `VariantDesk.VariantService.CreateProduct` | backend/app/services/catalog_service.py:328-342 | Creates a product with its variants in place, or refuses |
| `VariantDesk.VariantService.ReplaceAxes` | backend/app/services/variant_service.py:69-96 | Rewrites the axes in place and leaves existing variants alone |
| `VariantDesk.VariantService.GenerateVariants` | backend/app/services/variant_service.py:124-198 | Generates in place, or refuses and changes nothing |
| `VariantDesk.VariantService.Perform` | backend/app/services/variant_service.py:69-198 | Any call, keeping SKUs, options and names distinct |
| `ServiceRuns.Fulfil` | backend/app/services/fulfillment_service.py:96-609 | Any calls made in order on a live service leave every shelf within what it holds and every line billed for at most what left, out of what was allocated |
| `ServiceRuns.InvoiceTwice` | backend/app/services/invoice_service.py:87-172 | Invoicing an order twice in a row issues nothing the second time |
| `ServiceRuns.Subscribe` | backend/app/services/invoice_service.py:175-325 | Any calls on a live contract leave invoices plus pending amounts equal to base charges plus recorded amounts, credit notes equal to credits, and the first bill at the start date |
| `ServiceRuns.ChangeAndBack` | backend/app/services/subscription_service.py:90-163 | A change and its reversal on a live contract leave the next invoice owing what it owed |
| `ServiceRuns.Negotiate` | backend/app/services/negotiation_service.py:33-238 | Any calls that counter one at a time leave an approved or confirmed quotation with a newest round that was approved |
| `ServiceRuns.Price` | backend/app/services/catalog_service.py:66-223 | Any calls on a live catalog leave every stored price naming live parts and within half a ten-thousandth of its exact price |
| `ServiceRuns.Publish` | backend/app/services/variant_service.py:36-198 | Any calls on a live variant service leave SKUs distinct in the whole catalog, and options and names within each product |

## Left out

- Everything of `frontend/`, HTTP routing, schemas, authentication, role guards and lists, except the role test inside `decide`: they add no state to these components.
- Emails, notifications, Celery scheduling, PDF and XLSX export, reports, dashboards, upsell ranking and audit records.
- Payments, manual invoice edits, and the application of credit notes to invoices.
- `catalog_service.upsert_stock_item`, which writes reserved counts from admin input outside the ledger protocol, and deletion of warehouses.  Warehouse identifiers are not required to be distinct; where they are, as the primary key makes them, one listed shelf is one warehouse.
- Stored shipping estimates (the rates and the cost of a shipment are modelled), promised dates, tracking references and PICKING: they never feed back into quantities.
- Estimated shipment counts, carriers, customers, addresses and names on every row.
- Allocations with a NULL warehouse: a remainder with no active warehouse is refused, as NOT NULL refuses it.
- Rows tied on all three sort columns of the availability query keep the table's order; the database may choose another.
- Warehouse names are collation ranks, and identifiers are numbers instead of UUIDs.
- The ORM identity map, lazy loading and flush order, except where a query's autoflush decides what it sees.
- Redis failures and eviction of the version counter, and a counter that is not a number.
- Decimal's 28-digit context and binary floats on the way to a NUMERIC column: inputs are taken at the column's scale.
- Column overflow (a percentage or amount too wide for its NUMERIC).
- Concurrency between billing runs: each bill is one atomic step, and the billing locks are not modelled.
- SubscriptionDesk.BillDueRows: does not model rows skipped because their lock is taken, nor that a rollback (invoice_service.py:315, 322) expires the rows the session has loaded, so that the log line after it may fail on `subscription.id` and end the loop.
- Confirmation racing an incoming counter-offer or a decision.
- The quantities, dates and factor a subscription event records beside its amount: they are the call's own inputs.
- Unit costs and active flags typed in the matrix: no price depends on them.
- The order of invoice lines within an invoice, due dates and issue dates of shipped invoices.
- Quotation lines without a product or variant: the catalog columns are ON DELETE RESTRICT, so a governed line always has both.
- Snapshot line ids, which a later line deletion sets to NULL: frozen lines are named by position.
- Stock snapshots on quotation lines (warehouse, bin, available at entry) and product names, which nothing governed reads.
- An update of a quotation line that sends quantity as an explicit null.
- Deleting drafts, rule editing, and steps assigned to a named user: routing reads the role only.
- SKUs typed by hand in the matrix, which UNIQUE(sku) guards on its own, and the stock figures of a saved matrix, which are the ledger's restock call.
- A restock whose matrix save is never committed for want of a tier or a base currency: the ledger's restock is taken as committed.
- Unicode whitespace in stripped values: blanks, tabs and line ends only.
- Deleting products, and variants deleted in any other way than by generation or a catalog delete.
- QuoteToCash.FullyBilledMatchesQuoted: takes one price for all invoice lines of a quoted line, though a refused late submission can move it between two invoices; QuoteToCash.FullyBilledMissesByRepricing drops that, with the price in force at each invoice as a parameter, because ledger and quotation are separate state machines here.
- GovernanceDesk.QuotationService.Accept: its two commits are one step, because nothing after the first can fail.
- Skus.UniqueSkuIsFree: the length bound is stated below 10^63 taken SKUs; above it the suffix alone would exceed the column.
