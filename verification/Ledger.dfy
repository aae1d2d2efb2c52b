/** The fulfillment tables and what each committed call does to them.

    `Books` is one committed state of the shared tables.  Every call is a function from
    one state to the next, or a refusal that leaves the state alone: a Python exception
    or a violated CHECK, NOT NULL, FOREIGN KEY or RESTRICT rolls the transaction back. */
module Ledger {
  import opened Outcomes
  import opened Numbers
  import opened SplitPlanner

  // ------------------------------------------------------------------ rows

  type WarehouseId = nat
  type VariantId = nat
  type OrderId = nat

  /** The two rates a human entered, in cents: one shipment, and each unit in it.
      `nameRank` is where the name sorts in the database's collation. */
  datatype Warehouse = Warehouse(id: WarehouseId, active: bool, baseCost: nat, unitCost: nat, nameRank: nat)

  datatype ShelfKey = ShelfKey(warehouse: WarehouseId, variant: VariantId)

  datatype Stock = Stock(onHand: int, reserved: int) {
    /** The generated column quantity_available. */
    function Available(): int { onHand - reserved }
  }

  /** A quotation line is named by its order and its place in it; an order has at most
      one fulfillment, so the same number names both. */
  datatype LineId = LineId(order: OrderId, position: nat)

  datatype OrderLine = OrderLine(variant: Option<VariantId>, quantity: int, recurring: bool)

  datatype AllocationStatus = Planned | Reserved | Backordered | PartiallyShipped | Shipped | Cancelled

  datatype FulfillmentStatus = SplitPending | FullyReserved | Backorder | PartlyShipped | Fulfilled

  datatype Order = Order(lines: seq<OrderLine>, accepted: bool, status: FulfillmentStatus)

  datatype Allocation = Allocation(
    id: nat, line: LineId, warehouse: WarehouseId, variant: VariantId,
    quantity: int, shipped: int, status: AllocationStatus)

  datatype ShipmentStatus = ShipmentPlanned | ShipmentPicking | ShipmentOut

  datatype Shipment = Shipment(order: OrderId, warehouse: WarehouseId, status: ShipmentStatus)

  /** What physically left: `shipment` and `allocation` are foreign keys. */
  datatype ShipmentLine = ShipmentLine(
    shipment: nat, allocation: nat, line: LineId, quantity: int, invoiced: int)

  /** One one-time invoice line; `invoice` is the invoice's sequence number. */
  datatype BilledLine = BilledLine(invoice: nat, shipmentLine: nat, quantity: int)

  type StockTable = map<ShelfKey, Stock>

  datatype Books = Books(
    warehouses: seq<Warehouse>,
    stock: StockTable,
    orders: map<OrderId, Order>,
    allocations: seq<Allocation>,
    shipments: seq<Shipment>,
    shipmentLines: seq<ShipmentLine>,
    billed: seq<BilledLine>,
    nextAllocation: nat,
    nextInvoice: nat)

  datatype Refusal =
    | UnknownOrder | OrderExists | UnknownShipment | NoActiveWarehouse | ShippedHistory
    | AlreadyAccepted | UnknownLine | BadQuantity | LineNotCovered | ShelfOverdrawn
    | MissingReference | AlreadyShipped | NothingReserved | ConstraintViolated

  type Outcome = Result<Books, Refusal>

  function Shelf(a: Allocation): ShelfKey { ShelfKey(a.warehouse, a.variant) }

  function Outstanding(a: Allocation): int { a.quantity - a.shipped }

  function AvailableAt(stock: StockTable, key: ShelfKey): int {
    if key in stock then stock[key].Available() else 0
  }

  function ReservedAt(stock: StockTable, key: ShelfKey): int {
    if key in stock then stock[key].reserved else 0
  }

  /** The CHECK constraints of stock_items. */
  ghost predicate StockChecks(stock: StockTable) {
    forall key :: key in stock ==> 0 <= stock[key].reserved <= stock[key].onHand
  }

  predicate Physical(line: OrderLine) { !line.recurring && line.variant.Some? }

  // ------------------------------------------------------------- roll-up

  function StatusesOf(allocations: seq<Allocation>, order: OrderId): set<AllocationStatus> {
    set a | a in allocations && a.line.order == order :: a.status
  }

  function RollUp(statuses: set<AllocationStatus>): FulfillmentStatus {
    if statuses == {} then Fulfilled
    else if statuses == {Shipped} then Fulfilled
    else if Shipped in statuses || PartiallyShipped in statuses then PartlyShipped
    else if Backordered in statuses then Backorder
    else if Reserved in statuses then FullyReserved
    else SplitPending
  }

  // ------------------------------------------------- one pass over allocations

  /** The three loops that walk the allocations while changing stock: accepting an
      order's split, dispatching what is reserved at a warehouse, and the sweep. */
  datatype Move = Accepting(order: OrderId) | Dispatching(order: OrderId, warehouse: WarehouseId) | Sweeping

  predicate Eligible(move: Move, a: Allocation) {
    match move
    case Accepting(order) => a.line.order == order && a.status == Planned
    case Dispatching(order, warehouse) =>
      a.line.order == order && a.warehouse == warehouse && a.status == Reserved && Outstanding(a) > 0
    case Sweeping => a.status == Backordered
  }

  predicate Covered(a: Allocation, stock: StockTable) {
    Shelf(a) in stock && stock[Shelf(a)].Available() >= a.quantity
  }

  function Hold(stock: StockTable, key: ShelfKey, units: int): StockTable
    requires key in stock
  {
    stock[key := stock[key].(reserved := stock[key].reserved + units)]
  }

  /** Both counters drop on dispatch; the reserved one is clamped at zero. */
  function Release(stock: StockTable, key: ShelfKey, units: int): StockTable {
    if key !in stock then stock
    else
      var left := stock[key].reserved - units;
      stock[key := Stock(stock[key].onHand - units, if left < 0 then 0 else left)]
  }

  /** The move succeeds on this allocation. */
  predicate Succeeds(move: Move, a: Allocation, stock: StockTable) {
    Eligible(move, a) && (move.Dispatching? || Covered(a, stock))
  }

  function MovedRow(move: Move, a: Allocation, stock: StockTable): Allocation {
    if Succeeds(move, a, stock) then
      if move.Dispatching? then a.(shipped := a.shipped + Outstanding(a), status := Shipped)
      else a.(status := Reserved)
    else if move.Accepting? && Eligible(move, a) then a.(status := Backordered)
    else a
  }

  function MovedStock(move: Move, a: Allocation, stock: StockTable): StockTable {
    if !Succeeds(move, a, stock) then stock
    else if move.Dispatching? then Release(stock, Shelf(a), Outstanding(a))
    else Hold(stock, Shelf(a), a.quantity)
  }

  /** `moved` lists the allocations the move succeeded on, as they were before it. */
  datatype Pass = Pass(allocations: seq<Allocation>, stock: StockTable, moved: seq<Allocation>)

  function Walk(move: Move, rows: seq<Allocation>, stock: StockTable): Pass {
    if rows == [] then Pass([], stock, [])
    else
      var a := rows[0];
      var rest := Walk(move, rows[1..], MovedStock(move, a, stock));
      Pass([MovedRow(move, a, stock)] + rest.allocations, rest.stock,
           (if Succeeds(move, a, stock) then [a] else []) + rest.moved)
  }

  // --------------------------------------------------------------- planning

  /** One row of the availability query. */
  datatype ShelfRow = ShelfRow(
    warehouse: WarehouseId, available: int, baseCost: nat, unitCost: nat, nameRank: nat)

  /** What one shipment of these units from the shelf's warehouse costs. */
  function ShippingCost(shelf: ShelfRow, units: int): int { shelf.baseCost + shelf.unitCost * units }

  /** ORDER BY quantity_available DESC, shipping_base_cost, name. */
  predicate Precedes(x: ShelfRow, y: ShelfRow) {
    x.available > y.available ||
    (x.available == y.available &&
     (x.baseCost < y.baseCost || (x.baseCost == y.baseCost && x.nameRank <= y.nameRank)))
  }

  function InsertShelf(row: ShelfRow, rows: seq<ShelfRow>): seq<ShelfRow> {
    if rows == [] || Precedes(row, rows[0]) then [row] + rows
    else [rows[0]] + InsertShelf(row, rows[1..])
  }

  /** The availability of one variant per active warehouse; rows equal on all three
      sort columns keep the order of the warehouse table. */
  function StockFor(warehouses: seq<Warehouse>, stock: StockTable, variant: VariantId): seq<ShelfRow> {
    if warehouses == [] then []
    else
      var w := warehouses[0];
      var rest := StockFor(warehouses[1..], stock, variant);
      var key := ShelfKey(w.id, variant);
      if w.active && key in stock
      then InsertShelf(ShelfRow(w.id, stock[key].Available(), w.baseCost, w.unitCost, w.nameRank), rest)
      else rest
  }

  function Depths(rows: seq<ShelfRow>): seq<int> { seq(|rows|, i requires 0 <= i < |rows| => rows[i].available) }

  predicate CheaperDefault(x: Warehouse, y: Warehouse) {
    x.baseCost < y.baseCost || (x.baseCost == y.baseCost && x.nameRank <= y.nameRank)
  }

  function DefaultWarehouse(warehouses: seq<Warehouse>): Option<Warehouse> {
    if warehouses == [] then None
    else
      var rest := DefaultWarehouse(warehouses[1..]);
      if !warehouses[0].active then rest
      else if rest.None? || CheaperDefault(warehouses[0], rest.value) then Some(warehouses[0])
      else rest
  }

  /** The PLANNED rows of one line, one per shelf that gives something. */
  function PlannedRows(
      line: LineId, variant: VariantId, shelves: seq<ShelfRow>, takes: seq<int>, id: nat): seq<Allocation>
    requires |shelves| == |takes|
  {
    if shelves == [] then []
    else if takes[0] <= 0 then PlannedRows(line, variant, shelves[1..], takes[1..], id)
    else [Allocation(id, line, shelves[0].warehouse, variant, takes[0], 0, Planned)]
         + PlannedRows(line, variant, shelves[1..], takes[1..], id + 1)
  }

  /** The plan of one line: greedy draws, then one BACKORDERED row for the remainder.
      None when there is a remainder and no active warehouse to book it against. */
  function PlanLine(b: Books, id: LineId, line: OrderLine, next: nat): Option<seq<Allocation>> {
    if !Physical(line) then Some([])
    else
      var shelves := StockFor(b.warehouses, b.stock, line.variant.value);
      var takes := Takes(Depths(shelves), line.quantity);
      TakesLength(Depths(shelves), line.quantity);
      var rows := PlannedRows(id, line.variant.value, shelves, takes, next);
      var remaining := line.quantity - Sum(takes);
      if remaining <= 0 then Some(rows)
      else
        var fallback := DefaultWarehouse(b.warehouses);
        if fallback.None? then None
        else Some(rows + [Allocation(next + |rows|, id, fallback.value.id, line.variant.value,
                                     remaining, 0, Backordered)])
  }

  /** The plan of the lines from `position` on. */
  function PlanFrom(b: Books, order: OrderId, lines: seq<OrderLine>, position: nat, next: nat): Option<seq<Allocation>>
    requires position <= |lines|
    decreases |lines| - position
  {
    if position == |lines| then Some([])
    else
      var here := PlanLine(b, LineId(order, position), lines[position], next);
      if here.None? then None
      else
        var rest := PlanFrom(b, order, lines, position + 1, next + |here.value|);
        if rest.None? then None else Some(here.value + rest.value)
  }

  // ----------------------------------------------------------- replacing a plan

  function Without(rows: seq<Allocation>, order: OrderId): seq<Allocation> {
    if rows == [] then []
    else if rows[0].line.order == order then Without(rows[1..], order)
    else [rows[0]] + Without(rows[1..], order)
  }

  /** A shipment line still points at one of the order's allocations, so the database
      refuses to delete it (ON DELETE RESTRICT). */
  predicate HasHistory(b: Books, order: OrderId) {
    exists i, j :: 0 <= i < |b.allocations| && 0 <= j < |b.shipmentLines| &&
      b.allocations[i].line.order == order && b.shipmentLines[j].allocation == b.allocations[i].id
  }

  function Replaced(b: Books, order: OrderId, rows: seq<Allocation>, status: FulfillmentStatus): Books
    requires order in b.orders
  {
    b.(allocations := Without(b.allocations, order) + rows,
       nextAllocation := b.nextAllocation + |rows|,
       orders := b.orders[order := b.orders[order].(status := status)])
  }

  predicate AnyBackordered(rows: seq<Allocation>) {
    exists i :: 0 <= i < |rows| && rows[i].status == Backordered
  }

  // --------------------------------------------------------------- the calls

  function PlanSplit(b: Books, order: OrderId): Outcome {
    if order !in b.orders then Refused(UnknownOrder)
    else if HasHistory(b, order) then Refused(ShippedHistory)
    else
      match PlanFrom(b, order, b.orders[order].lines, 0, b.nextAllocation)
      case None => Refused(NoActiveWarehouse)
      case Some(rows) =>
        Committed(Replaced(b, order, rows, if AnyBackordered(rows) then Backorder else SplitPending))
  }

  /** Confirmation opens the order's fulfillment and plans it in one transaction.
      Quotation lines carry the CHECK quantity > 0. */
  function OpenOrder(b: Books, order: OrderId, lines: seq<OrderLine>): Outcome {
    if order in b.orders then Refused(OrderExists)
    else if exists i :: 0 <= i < |lines| && lines[i].quantity <= 0 then Refused(ConstraintViolated)
    else PlanSplit(b.(orders := b.orders[order := Order(lines, false, SplitPending)]), order)
  }

  function WarehousesOf(rows: seq<Allocation>): seq<WarehouseId> {
    if rows == [] then []
    else
      var earlier := WarehousesOf(rows[..|rows| - 1]);
      var w := rows[|rows| - 1].warehouse;
      if w in earlier then earlier else earlier + [w]
  }

  function PlannedShipments(order: OrderId, warehouses: seq<WarehouseId>): seq<Shipment> {
    seq(|warehouses|, i requires 0 <= i < |warehouses| => Shipment(order, warehouses[i], ShipmentPlanned))
  }

  function AcceptSplit(b: Books, order: OrderId): Outcome {
    if order !in b.orders then Refused(UnknownOrder)
    else if b.orders[order].accepted then Refused(AlreadyAccepted)
    else
      var pass := Walk(Accepting(order), b.allocations, b.stock);
      Committed(b.(
        allocations := pass.allocations,
        stock := pass.stock,
        shipments := b.shipments + PlannedShipments(order, WarehousesOf(pass.moved)),
        orders := b.orders[order := b.orders[order].(
          accepted := true, status := RollUp(StatusesOf(pass.allocations, order)))]))
  }

  function ShipmentLinesFor(shipment: nat, moved: seq<Allocation>): seq<ShipmentLine> {
    seq(|moved|, i requires 0 <= i < |moved| =>
      ShipmentLine(shipment, moved[i].id, moved[i].line, Outstanding(moved[i]), 0))
  }

  function Ship(b: Books, shipment: nat): Outcome {
    if shipment >= |b.shipments| then Refused(UnknownShipment)
    else
      var s := b.shipments[shipment];
      if s.status == ShipmentOut then Refused(AlreadyShipped)
      else if s.order !in b.orders then Refused(UnknownOrder)
      else
        var pass := Walk(Dispatching(s.order, s.warehouse), b.allocations, b.stock);
        if pass.moved == [] then Refused(NothingReserved)
        else if exists key :: key in pass.stock && !(0 <= pass.stock[key].reserved <= pass.stock[key].onHand)
        then Refused(ConstraintViolated)
        else Committed(b.(
          allocations := pass.allocations,
          stock := pass.stock,
          shipments := b.shipments[shipment := s.(status := ShipmentOut)],
          shipmentLines := b.shipmentLines + ShipmentLinesFor(shipment, pass.moved),
          orders := b.orders[s.order := b.orders[s.order].(
            status := RollUp(StatusesOf(pass.allocations, s.order)))]))
  }

  predicate HasPlannedShipment(shipments: seq<Shipment>, order: OrderId, warehouse: WarehouseId) {
    Shipment(order, warehouse, ShipmentPlanned) in shipments
  }

  /** Folds each reserved row into its warehouse's planned shipment, opening one if
      there is none. */
  function Consolidated(shipments: seq<Shipment>, moved: seq<Allocation>): seq<Shipment>
    decreases |moved|
  {
    if moved == [] then shipments
    else
      var a := moved[0];
      Consolidated(
        if HasPlannedShipment(shipments, a.line.order, a.warehouse) then shipments
        else shipments + [Shipment(a.line.order, a.warehouse, ShipmentPlanned)],
        moved[1..])
  }

  function OrdersOf(rows: seq<Allocation>): set<OrderId> {
    set a | a in rows :: a.line.order
  }

  function Rolled(orders: map<OrderId, Order>, allocations: seq<Allocation>, touched: set<OrderId>)
    : map<OrderId, Order>
  {
    map order | order in orders ::
      if order in touched then orders[order].(status := RollUp(StatusesOf(allocations, order)))
      else orders[order]
  }

  function ConsolidateBackorders(b: Books): Books {
    var pass := Walk(Sweeping, b.allocations, b.stock);
    b.(allocations := pass.allocations,
       stock := pass.stock,
       shipments := Consolidated(b.shipments, pass.moved),
       orders := Rolled(b.orders, pass.allocations, OrdersOf(pass.moved)))
  }

  /** One shelf of a saved variant matrix. */
  function Restock(b: Books, key: ShelfKey, quantity: int): Outcome {
    if !(exists i :: 0 <= i < |b.warehouses| && b.warehouses[i].id == key.warehouse)
    then Refused(MissingReference)
    else if key in b.stock then
      var item := b.stock[key];
      var onHand := if quantity < item.reserved then item.reserved else quantity;
      Committed(b.(stock := b.stock[key := item.(onHand := onHand)]))
    else if quantity < 0 then Refused(ConstraintViolated)
    else Committed(b.(stock := b.stock[key := Stock(quantity, 0)]))
  }

  // ------------------------------------------------------------ manual override

  /** A hand-written row.  `position` names a line of the order being overridden. */
  datatype OverrideRow = OverrideRow(position: nat, warehouse: WarehouseId, quantity: int, backordered: bool)

  /** The lines a row may name: everything that is not recurring. */
  predicate Overridable(lines: seq<OrderLine>, position: nat) {
    position < |lines| && !lines[position].recurring
  }

  /** The first row that is wrong on its own. */
  function RowProblem(lines: seq<OrderLine>, rows: seq<OverrideRow>): Option<Refusal> {
    if rows == [] then None
    else if !Overridable(lines, rows[0].position) then Some(UnknownLine)
    else if rows[0].quantity <= 0 then Some(BadQuantity)
    else RowProblem(lines, rows[1..])
  }

  function Supplied(rows: seq<OverrideRow>, position: nat): int {
    if rows == [] then 0
    else (if rows[0].position == position then rows[0].quantity else 0) + Supplied(rows[1..], position)
  }

  predicate AllSupplied(lines: seq<OrderLine>, rows: seq<OverrideRow>) {
    forall p :: 0 <= p < |lines| && !lines[p].recurring ==> Supplied(rows, p) == lines[p].quantity
  }

  /** Units drawn from one shelf, summed across rows. */
  function Drawn(
      lines: seq<OrderLine>, rows: seq<OverrideRow>, warehouse: WarehouseId, variant: Option<VariantId>): int {
    if rows == [] then 0
    else
      var r := rows[0];
      (if !r.backordered && r.warehouse == warehouse && r.position < |lines| && lines[r.position].variant == variant
       then r.quantity else 0) + Drawn(lines, rows[1..], warehouse, variant)
  }

  function FreeFor(stock: StockTable, warehouse: WarehouseId, variant: Option<VariantId>): int {
    if variant.None? then 0 else AvailableAt(stock, ShelfKey(warehouse, variant.value))
  }

  /** Every shelf a row draws on holds what all the rows together draw from it. */
  predicate WithinShelves(lines: seq<OrderLine>, rows: seq<OverrideRow>, stock: StockTable) {
    forall i :: 0 <= i < |rows| && !rows[i].backordered && rows[i].position < |lines| ==>
      Drawn(lines, rows, rows[i].warehouse, lines[rows[i].position].variant)
        <= FreeFor(stock, rows[i].warehouse, lines[rows[i].position].variant)
  }

  /** The rows satisfy NOT NULL variant_id and the warehouse foreign key. */
  predicate RowReferencesHold(b: Books, lines: seq<OrderLine>, rows: seq<OverrideRow>) {
    forall i :: 0 <= i < |rows| && rows[i].position < |lines| ==>
      lines[rows[i].position].variant.Some? &&
      exists w :: 0 <= w < |b.warehouses| && b.warehouses[w].id == rows[i].warehouse
  }

  function OverrideRowsFrom(order: OrderId, lines: seq<OrderLine>, rows: seq<OverrideRow>, next: nat): seq<Allocation>
    requires forall i :: 0 <= i < |rows| ==> rows[i].position < |lines| && lines[rows[i].position].variant.Some?
  {
    seq(|rows|, i requires 0 <= i < |rows| =>
      Allocation(next + i, LineId(order, rows[i].position), rows[i].warehouse,
                 lines[rows[i].position].variant.value, rows[i].quantity, 0,
                 if rows[i].backordered then Backordered else Planned))
  }

  lemma {:induction false} RowsAreOverridable(lines: seq<OrderLine>, rows: seq<OverrideRow>)
    requires RowProblem(lines, rows).None?
    ensures forall i :: 0 <= i < |rows| ==> Overridable(lines, rows[i].position) && rows[i].quantity > 0
  {
    if rows != [] { RowsAreOverridable(lines, rows[1..]); }
  }

  function ManualOverride(b: Books, order: OrderId, rows: seq<OverrideRow>): Outcome {
    if order !in b.orders then Refused(UnknownOrder)
    else if b.orders[order].accepted then Refused(AlreadyAccepted)
    else
      var lines := b.orders[order].lines;
      if RowProblem(lines, rows).Some? then Refused(RowProblem(lines, rows).value)
      else if !AllSupplied(lines, rows) then Refused(LineNotCovered)
      else if !WithinShelves(lines, rows, b.stock) then Refused(ShelfOverdrawn)
      else if HasHistory(b, order) then Refused(ShippedHistory)
      else if !RowReferencesHold(b, lines, rows) then Refused(MissingReference)
      else
        RowsAreOverridable(lines, rows);
        var replacements := OverrideRowsFrom(order, lines, rows, b.nextAllocation);
        Committed(Replaced(b, order, replacements, RollUp(StatusesOf(replacements, order))))
  }

  // ------------------------------------------------------------ shipped billing

  /** The shipment lines of the order that still have unbilled units. */
  predicate Billable(sl: ShipmentLine, order: OrderId) {
    sl.line.order == order && sl.invoiced < sl.quantity
  }

  function BilledFrom(lines: seq<ShipmentLine>, order: OrderId, index: nat, invoice: nat): seq<BilledLine>
    requires index <= |lines|
    decreases |lines| - index
  {
    if index == |lines| then []
    else
      (if Billable(lines[index], order)
       then [BilledLine(invoice, index, lines[index].quantity - lines[index].invoiced)] else [])
      + BilledFrom(lines, order, index + 1, invoice)
  }

  function MarkBilled(lines: seq<ShipmentLine>, order: OrderId): seq<ShipmentLine> {
    seq(|lines|, i requires 0 <= i < |lines| =>
      if Billable(lines[i], order)
      then lines[i].(invoiced := lines[i].invoiced + (lines[i].quantity - lines[i].invoiced))
      else lines[i])
  }

  /** Issues an invoice for everything shipped and not yet billed; no rows, no invoice. */
  function InvoiceShipped(b: Books, order: OrderId): Books {
    var issued := BilledFrom(b.shipmentLines, order, 0, b.nextInvoice);
    if issued == [] then b
    else b.(shipmentLines := MarkBilled(b.shipmentLines, order),
            billed := b.billed + issued,
            nextInvoice := b.nextInvoice + 1)
  }

  // ------------------------------------------------------------- warehouses

  function WithWarehouse(warehouses: seq<Warehouse>, w: Warehouse): seq<Warehouse> {
    if warehouses == [] then [w]
    else if warehouses[0].id == w.id then [w] + warehouses[1..]
    else [warehouses[0]] + WithWarehouse(warehouses[1..], w)
  }

  /** Adds a warehouse, or activates, deactivates, renames or reprices one. */
  function SaveWarehouse(b: Books, w: Warehouse): Books { b.(warehouses := WithWarehouse(b.warehouses, w)) }

  // ----------------------------------------------------------------- runs

  datatype Call =
    | DoOpen(order: OrderId, lines: seq<OrderLine>)
    | DoPlan(order: OrderId)
    | DoAccept(order: OrderId)
    | DoOverride(order: OrderId, rows: seq<OverrideRow>)
    | DoShip(shipment: nat)
    | DoSweep
    | DoRestock(key: ShelfKey, quantity: int)
    | DoInvoice(order: OrderId)
    | DoWarehouse(warehouse: Warehouse)

  function Attempt(b: Books, call: Call): Outcome {
    match call
    case DoOpen(order, lines) => OpenOrder(b, order, lines)
    case DoPlan(order) => PlanSplit(b, order)
    case DoAccept(order) => AcceptSplit(b, order)
    case DoOverride(order, rows) => ManualOverride(b, order, rows)
    case DoShip(shipment) => Ship(b, shipment)
    case DoSweep => Committed(ConsolidateBackorders(b))
    case DoRestock(key, quantity) => Restock(b, key, quantity)
    case DoInvoice(order) => Committed(InvoiceShipped(b, order))
    case DoWarehouse(w) => Committed(SaveWarehouse(b, w))
  }

  function After(outcome: Outcome, before: Books): Books {
    if outcome.Committed? then outcome.value else before
  }

  function Run(b: Books, calls: seq<Call>): Books {
    if calls == [] then b
    else
      var earlier := Run(b, calls[..|calls| - 1]);
      After(Attempt(earlier, calls[|calls| - 1]), earlier)
  }

  /** Empty tables: warehouses are configured, nothing is stocked or sold yet. */
  function Opening(warehouses: seq<Warehouse>): Books {
    Books(warehouses, map[], map[], [], [], [], [], 0, 0)
  }
}
