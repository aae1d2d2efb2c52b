/** What holds of the fulfillment tables after any run of calls. */
module LedgerInvariant {
  import opened Ledger
  import opened LedgerWalk
  import opened LedgerPlan

  // ------------------------------------------------------------- the invariant

  ghost predicate OrdersPositive(orders: map<OrderId, Order>) {
    forall o :: o in orders ==> LinesPositive(orders[o].lines)
  }

  /** Each allocation belongs to a physical line of an existing order. */
  predicate Placed(a: Allocation, orders: map<OrderId, Order>) {
    && a.line.order in orders
    && a.line.position < |orders[a.line.order].lines|
    && Physical(orders[a.line.order].lines[a.line.position])
    && orders[a.line.order].lines[a.line.position].variant.value == a.variant
  }

  ghost predicate RowsValid(rows: seq<Allocation>, orders: map<OrderId, Order>, next: nat) {
    && AllSound(rows)
    && DistinctIds(rows)
    && forall i :: 0 <= i < |rows| ==> Placed(rows[i], orders) && rows[i].id < next
  }

  /** Allocations of a line sum to what was ordered. */
  ghost predicate Allocated(rows: seq<Allocation>, orders: map<OrderId, Order>, pending: set<OrderId>) {
    forall o, p :: o in orders && o !in pending && 0 <= p < |orders[o].lines| ==>
      Units(rows, LineId(o, p)) == if Physical(orders[o].lines[p]) then orders[o].lines[p].quantity else 0
  }

  /** Whatever is reserved has a planned shipment of its own order at its warehouse. */
  ghost predicate ReservedIsPlanned(rows: seq<Allocation>, shipments: seq<Shipment>) {
    forall i :: 0 <= i < |rows| && rows[i].status == Reserved ==>
      HasPlannedShipment(shipments, rows[i].line.order, rows[i].warehouse)
  }

  function Dispatched(lines: seq<ShipmentLine>, line: LineId): int {
    if lines == [] then 0
    else (if lines[0].line == line then lines[0].quantity else 0) + Dispatched(lines[1..], line)
  }

  function Invoiced(lines: seq<ShipmentLine>, line: LineId): int {
    if lines == [] then 0
    else (if lines[0].line == line then lines[0].invoiced else 0) + Invoiced(lines[1..], line)
  }

  /** Shipment lines account for exactly the units the allocations say have left, each
      belongs to a dispatched shipment of its own order, and every shipped allocation
      has one, which is what stops its deletion. */
  ghost predicate ShippingRecorded(b: Books) {
    && (forall line :: UnitsOut(b.allocations, line) == Dispatched(b.shipmentLines, line))
    && AllFromShipments(b.shipmentLines, b.shipments)
    && ShippedInHistory(b.allocations, b.shipmentLines)
  }

  ghost predicate AllFromShipments(lines: seq<ShipmentLine>, shipments: seq<Shipment>) {
    forall j :: 0 <= j < |lines| ==> FromShipment(lines[j], shipments)
  }

  ghost predicate ShippedInHistory(rows: seq<Allocation>, lines: seq<ShipmentLine>) {
    forall i :: 0 <= i < |rows| && rows[i].status == Shipped ==> InHistory(rows[i].id, lines)
  }

  predicate FromShipment(sl: ShipmentLine, shipments: seq<Shipment>) {
    && sl.quantity > 0
    && sl.shipment < |shipments| && shipments[sl.shipment].status == ShipmentOut
    && shipments[sl.shipment].order == sl.line.order
  }

  predicate InHistory(id: nat, lines: seq<ShipmentLine>) {
    exists j :: 0 <= j < |lines| && lines[j].allocation == id
  }

  /** Each shipment line is unbilled, or billed once and in full. */
  ghost predicate BilledOnce(lines: seq<ShipmentLine>, billed: seq<BilledLine>) {
    && (forall j :: 0 <= j < |lines| ==> lines[j].invoiced == 0 || 0 < lines[j].invoiced == lines[j].quantity)
    && (forall k :: 0 <= k < |billed| ==> BillsInFull(billed[k], lines))
    && (forall k, m :: 0 <= k < m < |billed| ==> billed[k].shipmentLine != billed[m].shipmentLine)
    && (forall j :: 0 <= j < |lines| && lines[j].invoiced > 0 ==> IsBilled(j, billed))
  }

  predicate BillsInFull(bill: BilledLine, lines: seq<ShipmentLine>) {
    && bill.shipmentLine < |lines|
    && bill.quantity == lines[bill.shipmentLine].quantity == lines[bill.shipmentLine].invoiced
  }

  predicate IsBilled(j: nat, billed: seq<BilledLine>) {
    exists k :: 0 <= k < |billed| && billed[k].shipmentLine == j
  }

  /** A stored status is what the order's allocations collectively say, except that an
      order with nothing to ship starts as SPLIT_PENDING. */
  ghost predicate StatusesRolled(rows: seq<Allocation>, orders: map<OrderId, Order>, pending: set<OrderId>) {
    forall o :: o in orders && o !in pending ==>
      (orders[o].status == RollUp(StatusesOf(rows, o)) ||
       (StatusesOf(rows, o) == {} && orders[o].status == SplitPending))
  }

  ghost predicate Valid(b: Books) { ValidBut(b, {}) }

  /** Valid, except that the `pending` orders are not planned yet. */
  ghost predicate ValidBut(b: Books, pending: set<OrderId>) {
    && StockChecks(b.stock)
    && OrdersPositive(b.orders)
    && RowsValid(b.allocations, b.orders, b.nextAllocation)
    && WithinReserved(b.allocations, b.stock)
    && Allocated(b.allocations, b.orders, pending)
    && ReservedIsPlanned(b.allocations, b.shipments)
    && ShippingRecorded(b)
    && BilledOnce(b.shipmentLines, b.billed)
    && StatusesRolled(b.allocations, b.orders, pending)
  }

  // ---------------------------------------------------------- replacing a plan

  /** The order's rows can only be deleted while none of them has shipped. */
  lemma NoHistoryNothingOut(b: Books, order: OrderId)
    requires RowsValid(b.allocations, b.orders, b.nextAllocation) && ShippingRecorded(b) && !HasHistory(b, order)
    ensures forall i :: 0 <= i < |b.allocations| && b.allocations[i].line.order == order ==>
            b.allocations[i].status != Shipped
  {
    forall i | 0 <= i < |b.allocations| && b.allocations[i].line.order == order
      ensures b.allocations[i].status != Shipped
    {
      assert b.allocations[i].status == Shipped ==> InHistory(b.allocations[i].id, b.shipmentLines);
    }
  }

  lemma {:induction false} NothingOut(rows: seq<Allocation>, line: LineId)
    requires AllSound(rows)
    requires forall i :: 0 <= i < |rows| && rows[i].line.order == line.order ==> rows[i].status != Shipped
    ensures UnitsOut(rows, line) == 0
  {
    if rows != [] {
      assert Sound(rows[0]);
      NothingOut(rows[1..], line);
    }
  }

  /** The new rows an order's plan or override writes. */
  ghost predicate ReplacementFor(rows: seq<Allocation>, order: OrderId, lines: seq<OrderLine>, next: nat) {
    && (forall i :: 0 <= i < |rows| ==> NewRow(rows[i], order, lines) && rows[i].id == next + i)
    && (forall p :: 0 <= p < |lines| ==>
          Units(rows, LineId(order, p)) == if Physical(lines[p]) then lines[p].quantity else 0)
  }

  lemma ReplacementSums(b: Books, order: OrderId, rows: seq<Allocation>, line: LineId)
    requires RowsValid(b.allocations, b.orders, b.nextAllocation) && ShippingRecorded(b) && !HasHistory(b, order)
    requires order in b.orders && ReplacementFor(rows, order, b.orders[order].lines, b.nextAllocation)
    ensures var all := Without(b.allocations, order) + rows;
            && Units(all, line) == (if line.order == order then Units(rows, line) else Units(b.allocations, line))
            && UnitsOut(all, line) == UnitsOut(b.allocations, line)
  {
    UnitsConcat(Without(b.allocations, order), rows, line);
    WithoutUnits(b.allocations, order, line);
    if line.order == order {
      NoHistoryNothingOut(b, order);
      NothingOut(b.allocations, line);
      forall i | 0 <= i < |rows| ensures Sound(rows[i]) && rows[i].status != Shipped {
        assert NewRow(rows[i], order, b.orders[order].lines);
      }
      NothingOut(rows, line);
    } else {
      forall i | 0 <= i < |rows| ensures rows[i].line != line { assert NewRow(rows[i], order, b.orders[order].lines); }
      NoUnitsElsewhere(rows, line);
    }
  }

  lemma ReplacementHeld(b: Books, order: OrderId, rows: seq<Allocation>, key: ShelfKey)
    requires AllSound(b.allocations)
    requires order in b.orders && ReplacementFor(rows, order, b.orders[order].lines, b.nextAllocation)
    ensures Held(Without(b.allocations, order) + rows, key)
            == Held(b.allocations, key) - HeldFor(b.allocations, order, key)
    ensures HeldFor(b.allocations, order, key) >= 0
  {
    HeldConcat(Without(b.allocations, order), rows, key);
    forall i | 0 <= i < |rows| ensures rows[i].status == Planned || rows[i].status == Backordered {
      assert NewRow(rows[i], order, b.orders[order].lines);
    }
    NewRowsHoldNothing(rows, key);
    WithoutHeld(b.allocations, order, key);
  }

  /** An existing row that survives a replacement, or a new one. */
  lemma ReplacedRow(b: Books, order: OrderId, rows: seq<Allocation>, i: nat)
    requires i < |Without(b.allocations, order) + rows|
    ensures var a := (Without(b.allocations, order) + rows)[i];
            (a in b.allocations && a.line.order != order && i < |Without(b.allocations, order)|) ||
            (i >= |Without(b.allocations, order)| && a == rows[i - |Without(b.allocations, order)|])
  {
    WithoutKeeps(b.allocations, order);
    if i < |Without(b.allocations, order)| {
      assert Without(b.allocations, order)[i] in Without(b.allocations, order);
    }
  }

  lemma ReplacedRowsValid(b: Books, order: OrderId, rows: seq<Allocation>, status: FulfillmentStatus)
    requires RowsValid(b.allocations, b.orders, b.nextAllocation)
    requires order in b.orders && ReplacementFor(rows, order, b.orders[order].lines, b.nextAllocation)
    ensures var b' := Replaced(b, order, rows, status); RowsValid(b'.allocations, b'.orders, b'.nextAllocation)
  {
    var b' := Replaced(b, order, rows, status);
    WithoutKeeps(b.allocations, order);
    var kept := Without(b.allocations, order);
    forall i | 0 <= i < |b'.allocations|
      ensures Sound(b'.allocations[i]) && Placed(b'.allocations[i], b'.orders)
              && b'.allocations[i].id < b'.nextAllocation
      ensures i < |kept| ==> b'.allocations[i].id < b.nextAllocation
      ensures i >= |kept| ==> b'.allocations[i].id == b.nextAllocation + (i - |kept|)
    {
      ReplacedRow(b, order, rows, i);
      if i < |kept| {
        var k :| 0 <= k < |b.allocations| && b.allocations[k] == b'.allocations[i];
        assert Placed(b.allocations[k], b.orders) && Sound(b.allocations[k]);
      } else {
        assert NewRow(rows[i - |kept|], order, b.orders[order].lines);
      }
    }
  }

  lemma StatusesOfReplaced(b: Books, order: OrderId, rows: seq<Allocation>, o: OrderId)
    requires forall i :: 0 <= i < |rows| ==> rows[i].line.order == order
    ensures StatusesOf(Without(b.allocations, order) + rows, o)
              == if o == order then StatusesOf(rows, order) else StatusesOf(b.allocations, o)
  {
    WithoutKeeps(b.allocations, order);
    var all := Without(b.allocations, order) + rows;
    assert forall a :: a in all <==> a in Without(b.allocations, order) || a in rows;
  }

  lemma ReplacedRowsCovered(b: Books, order: OrderId, rows: seq<Allocation>, status: FulfillmentStatus)
    requires ValidBut(b, {order}) && order in b.orders && !HasHistory(b, order)
    requires ReplacementFor(rows, order, b.orders[order].lines, b.nextAllocation)
    ensures var b' := Replaced(b, order, rows, status);
            ReservedIsPlanned(b'.allocations, b'.shipments) && ShippedInHistory(b'.allocations, b'.shipmentLines)
  {
    var b' := Replaced(b, order, rows, status);
    forall i | 0 <= i < |b'.allocations|
      ensures b'.allocations[i].status == Reserved ==>
              HasPlannedShipment(b'.shipments, b'.allocations[i].line.order, b'.allocations[i].warehouse)
      ensures b'.allocations[i].status == Shipped ==> InHistory(b'.allocations[i].id, b'.shipmentLines)
    {
      ReplacedRow(b, order, rows, i);
      var kept := Without(b.allocations, order);
      if i < |kept| {
        var k :| 0 <= k < |b.allocations| && b.allocations[k] == b'.allocations[i];
      } else {
        assert NewRow(rows[i - |kept|], order, b.orders[order].lines);
      }
    }
  }

  /** Replacing an order's plan keeps every invariant, whoever wrote the new rows. */
  lemma ReplaceKeepsValid(b: Books, order: OrderId, rows: seq<Allocation>, status: FulfillmentStatus)
    requires ValidBut(b, {order}) && order in b.orders && !HasHistory(b, order)
    requires ReplacementFor(rows, order, b.orders[order].lines, b.nextAllocation)
    requires status == RollUp(StatusesOf(rows, order)) || (rows == [] && status == SplitPending)
    ensures Valid(Replaced(b, order, rows, status))
  {
    var b' := Replaced(b, order, rows, status);
    ReplacedRowsValid(b, order, rows, status);
    forall key ensures Held(b'.allocations, key) <= ReservedAt(b'.stock, key) {
      ReplacementHeld(b, order, rows, key);
      assert Held(b.allocations, key) <= ReservedAt(b.stock, key);
    }
    forall line ensures UnitsOut(b'.allocations, line) == Dispatched(b'.shipmentLines, line) {
      ReplacementSums(b, order, rows, line);
    }
    forall o, p | o in b'.orders && 0 <= p < |b'.orders[o].lines|
      ensures Units(b'.allocations, LineId(o, p))
              == if Physical(b'.orders[o].lines[p]) then b'.orders[o].lines[p].quantity else 0
    {
      ReplacementSums(b, order, rows, LineId(o, p));
      assert b'.orders[o].lines == b.orders[o].lines;
    }
    ReplacedRowsCovered(b, order, rows, status);
    forall i | 0 <= i < |rows| ensures rows[i].line.order == order {
      assert NewRow(rows[i], order, b.orders[order].lines);
    }
    forall o | o in b'.orders
      ensures b'.orders[o].status == RollUp(StatusesOf(b'.allocations, o)) ||
              (StatusesOf(b'.allocations, o) == {} && b'.orders[o].status == SplitPending)
    {
      StatusesOfReplaced(b, order, rows, o);
    }
  }

  /** The planner's own status is the roll-up of what it planned. */
  lemma PlanStatus(rows: seq<Allocation>, order: OrderId, lines: seq<OrderLine>)
    requires forall i :: 0 <= i < |rows| ==> NewRow(rows[i], order, lines)
    ensures var status := if AnyBackordered(rows) then Backorder else SplitPending;
            status == RollUp(StatusesOf(rows, order)) || (rows == [] && status == SplitPending)
  {
    var statuses := StatusesOf(rows, order);
    if rows != [] {
      assert NewRow(rows[0], order, lines);
      assert rows[0].status in statuses;
      forall s | s in statuses ensures s == Planned || s == Backordered {
        var a :| a in rows && a.line.order == order && a.status == s;
        var i :| 0 <= i < |rows| && rows[i] == a;
        assert NewRow(rows[i], order, lines);
      }
      if AnyBackordered(rows) {
        var i :| 0 <= i < |rows| && rows[i].status == Backordered;
        assert NewRow(rows[i], order, lines);
        assert Backordered in statuses;
      } else {
        assert Backordered !in statuses;
      }
    }
  }

  lemma PlanKeepsValid(b: Books, order: OrderId)
    requires ValidBut(b, {order}) && PlanSplit(b, order).Committed?
    ensures Valid(PlanSplit(b, order).value)
  {
    var lines := b.orders[order].lines;
    PlanFromCovers(b, order, lines, 0, b.nextAllocation);
    var rows := PlanFrom(b, order, lines, 0, b.nextAllocation).value;
    PlanStatus(rows, order, lines);
    ReplaceKeepsValid(b, order, rows, if AnyBackordered(rows) then Backorder else SplitPending);
  }

  /** What a committed override writes is a full replacement plan. */
  lemma OverrideReplaces(b: Books, order: OrderId, rows: seq<OverrideRow>)
    requires ManualOverride(b, order, rows).Committed?
    ensures forall i :: 0 <= i < |rows| ==>
              rows[i].position < |b.orders[order].lines| && b.orders[order].lines[rows[i].position].variant.Some?
    ensures ReplacementFor(OverrideRowsFrom(order, b.orders[order].lines, rows, b.nextAllocation),
                           order, b.orders[order].lines, b.nextAllocation)
    ensures var written := OverrideRowsFrom(order, b.orders[order].lines, rows, b.nextAllocation);
            !HasHistory(b, order) && ManualOverride(b, order, rows).value
                == Replaced(b, order, written, RollUp(StatusesOf(written, order)))
  {
    var lines := b.orders[order].lines;
    RowsAreOverridable(lines, rows);
    var written := OverrideRowsFrom(order, lines, rows, b.nextAllocation);
    forall i | 0 <= i < |written| ensures NewRow(written[i], order, lines) {
      assert Overridable(lines, rows[i].position);
    }
    forall p | 0 <= p < |lines|
      ensures Units(written, LineId(order, p)) == if Physical(lines[p]) then lines[p].quantity else 0
    {
      OverrideUnits(order, lines, rows, b.nextAllocation, p);
      if !Physical(lines[p]) {
        SuppliedNothing(lines, rows, p);
      }
    }
  }

  lemma ValidIsValidBut(b: Books, order: OrderId)
    requires Valid(b)
    ensures ValidBut(b, {order})
  {
  }

  lemma OverrideKeepsValid(b: Books, order: OrderId, rows: seq<OverrideRow>)
    requires Valid(b) && ManualOverride(b, order, rows).Committed?
    ensures Valid(ManualOverride(b, order, rows).value)
  {
    OverrideReplaces(b, order, rows);
    ReplacementKeepsValid(b, order, OverrideRowsFrom(order, b.orders[order].lines, rows, b.nextAllocation));
  }

  lemma ReplacementKeepsValid(b: Books, order: OrderId, written: seq<Allocation>)
    requires Valid(b) && order in b.orders && !HasHistory(b, order)
    requires ReplacementFor(written, order, b.orders[order].lines, b.nextAllocation)
    ensures Valid(Replaced(b, order, written, RollUp(StatusesOf(written, order))))
  {
    ValidIsValidBut(b, order);
    ReplaceKeepsValid(b, order, written, RollUp(StatusesOf(written, order)));
  }

  /** No committed row names a recurring line or one without a variant. */
  lemma {:induction false} SuppliedNothing(lines: seq<OrderLine>, rows: seq<OverrideRow>, p: nat)
    requires p < |lines| && !Physical(lines[p])
    requires forall i :: 0 <= i < |rows| ==> Overridable(lines, rows[i].position)
    requires forall i :: 0 <= i < |rows| ==> rows[i].position < |lines| && lines[rows[i].position].variant.Some?
    ensures Supplied(rows, p) == 0
  {
    if rows != [] {
      assert Overridable(lines, rows[0].position);
      SuppliedNothing(lines, rows[1..], p);
    }
  }

  lemma OpenKeepsValid(b: Books, order: OrderId, lines: seq<OrderLine>)
    requires Valid(b) && OpenOrder(b, order, lines).Committed?
    ensures Valid(OpenOrder(b, order, lines).value)
  {
    var started := b.(orders := b.orders[order := Order(lines, false, SplitPending)]);
    assert ValidBut(started, {order}) by {
      forall i | 0 <= i < |b.allocations| ensures Placed(b.allocations[i], started.orders) {
        assert Placed(b.allocations[i], b.orders);
      }
    }
    PlanKeepsValid(started, order);
  }
}
