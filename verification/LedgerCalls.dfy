/** The calls that walk the allocations, restock a shelf or bill what shipped keep the
    invariant, and therefore so does every run. */
module LedgerCalls {
  import opened Outcomes
  import opened Ledger
  import opened LedgerWalk
  import opened LedgerInvariant

  // ------------------------------------------------------ what every pass keeps

  lemma WalkKeepsRows(move: Move, b: Books)
    requires Valid(b)
    ensures var p := Walk(move, b.allocations, b.stock);
            && StockChecks(p.stock)
            && RowsValid(p.allocations, b.orders, b.nextAllocation)
            && WithinReserved(p.allocations, p.stock)
            && Allocated(p.allocations, b.orders, {})
  {
    var p := Walk(move, b.allocations, b.stock);
    WalkRows(move, b.allocations, b.stock);
    WalkBalances(move, b.allocations, b.stock);
    forall i | 0 <= i < |p.allocations| ensures Sound(p.allocations[i]) && Placed(p.allocations[i], b.orders) {
      assert Sound(b.allocations[i]) && Placed(b.allocations[i], b.orders);
      assert Follows(move, b.allocations[i], p.allocations[i]) && SameRow(b.allocations[i], p.allocations[i]);
    }
    forall i, j | 0 <= i < j < |p.allocations| ensures p.allocations[i].id != p.allocations[j].id {
      assert SameRow(b.allocations[i], p.allocations[i]) && SameRow(b.allocations[j], p.allocations[j]);
    }
    forall key ensures Held(p.allocations, key) <= ReservedAt(p.stock, key) {
      assert Held(b.allocations, key) <= ReservedAt(b.stock, key);
    }
    forall o, q | o in b.orders && 0 <= q < |b.orders[o].lines|
      ensures Units(p.allocations, LineId(o, q))
              == if Physical(b.orders[o].lines[q]) then b.orders[o].lines[q].quantity else 0
    {
      UnitsSame(b.allocations, p.allocations, LineId(o, q));
    }
  }

  ghost predicate SameLines(orders: map<OrderId, Order>, orders': map<OrderId, Order>) {
    orders'.Keys == orders.Keys && forall o :: o in orders ==> orders'[o].lines == orders[o].lines
  }

  /** Only the lines of the orders matter to the rows and sums. */
  lemma SameLinesKeep(rows: seq<Allocation>, orders: map<OrderId, Order>, orders': map<OrderId, Order>, next: nat)
    requires SameLines(orders, orders')
    requires OrdersPositive(orders) && RowsValid(rows, orders, next) && Allocated(rows, orders, {})
    ensures OrdersPositive(orders') && RowsValid(rows, orders', next) && Allocated(rows, orders', {})
  {
    forall i | 0 <= i < |rows| ensures Placed(rows[i], orders') { assert Placed(rows[i], orders); }
    forall o, p | o in orders' && 0 <= p < |orders'[o].lines|
      ensures Units(rows, LineId(o, p)) == if Physical(orders'[o].lines[p]) then orders'[o].lines[p].quantity else 0
    {
      assert orders'[o].lines == orders[o].lines;
    }
  }

  /** An order none of whose rows could change keeps its set of statuses. */
  lemma WalkKeepsStatuses(move: Move, b: Books, o: OrderId)
    requires forall a :: a in Walk(move, b.allocations, b.stock).moved ==> a.line.order != o
    requires move.Accepting? ==> move.order != o
    ensures StatusesOf(Walk(move, b.allocations, b.stock).allocations, o) == StatusesOf(b.allocations, o)
  {
    var rows := Walk(move, b.allocations, b.stock).allocations;
    WalkRows(move, b.allocations, b.stock);
    forall i | 0 <= i < |rows| && (rows[i].line.order == o || b.allocations[i].line.order == o)
      ensures rows[i] == b.allocations[i]
    {
      assert Follows(move, b.allocations[i], rows[i]) && SameRow(b.allocations[i], rows[i]);
    }
    forall s | s in StatusesOf(rows, o) ensures s in StatusesOf(b.allocations, o) {
      var a :| a in rows && a.line.order == o && a.status == s;
      var i :| 0 <= i < |rows| && rows[i] == a;
      assert b.allocations[i] in b.allocations;
    }
    forall s | s in StatusesOf(b.allocations, o) ensures s in StatusesOf(rows, o) {
      var a :| a in b.allocations && a.line.order == o && a.status == s;
      var i :| 0 <= i < |rows| && b.allocations[i] == a;
      assert rows[i] in rows;
    }
  }

  // ---------------------------------------------------------------- acceptance

  lemma {:induction false} WarehousesCover(rows: seq<Allocation>)
    ensures forall a :: a in rows ==> a.warehouse in WarehousesOf(rows)
  {
    if rows != [] {
      var front := rows[..|rows| - 1];
      WarehousesCover(front);
      forall a | a in rows ensures a.warehouse in WarehousesOf(rows) {
        if a in front { } else { assert a == rows[|rows| - 1]; }
      }
    }
  }

  lemma AcceptKeepsPlanned(b: Books, order: OrderId)
    requires Valid(b) && AcceptSplit(b, order).Committed?
    ensures ReservedIsPlanned(AcceptSplit(b, order).value.allocations, AcceptSplit(b, order).value.shipments)
  {
    var move := Accepting(order);
    var p := Walk(move, b.allocations, b.stock);
    var b' := AcceptSplit(b, order).value;
    WalkRows(move, b.allocations, b.stock);
    WarehousesCover(p.moved);
    forall i | 0 <= i < |b'.allocations| && b'.allocations[i].status == Reserved
      ensures HasPlannedShipment(b'.shipments, b'.allocations[i].line.order, b'.allocations[i].warehouse)
    {
      assert Follows(move, b.allocations[i], p.allocations[i]) && SameRow(b.allocations[i], p.allocations[i]);
      if p.allocations[i] != b.allocations[i] {
        var a := b.allocations[i];
        assert a in p.moved && a.warehouse in WarehousesOf(p.moved);
        var k :| 0 <= k < |WarehousesOf(p.moved)| && WarehousesOf(p.moved)[k] == a.warehouse;
        assert PlannedShipments(order, WarehousesOf(p.moved))[k] == Shipment(order, a.warehouse, ShipmentPlanned);
      } else {
        assert HasPlannedShipment(b.shipments, b.allocations[i].line.order, b.allocations[i].warehouse);
      }
    }
  }

  lemma AcceptKeepsStatuses(b: Books, order: OrderId)
    requires Valid(b) && AcceptSplit(b, order).Committed?
    ensures StatusesRolled(AcceptSplit(b, order).value.allocations, AcceptSplit(b, order).value.orders, {})
  {
    var move := Accepting(order);
    var b' := AcceptSplit(b, order).value;
    WalkRows(move, b.allocations, b.stock);
    forall o | o in b'.orders
      ensures b'.orders[o].status == RollUp(StatusesOf(b'.allocations, o)) ||
              (StatusesOf(b'.allocations, o) == {} && b'.orders[o].status == SplitPending)
    {
      if o != order { WalkKeepsStatuses(move, b, o); }
    }
  }

  lemma AcceptKeepsValid(b: Books, order: OrderId)
    requires Valid(b) && AcceptSplit(b, order).Committed?
    ensures Valid(AcceptSplit(b, order).value)
  {
    var move := Accepting(order);
    var b' := AcceptSplit(b, order).value;
    WalkKeepsRows(move, b);
    SameLinesKeep(b'.allocations, b.orders, b'.orders, b.nextAllocation);
    AcceptKeepsPlanned(b, order);
    AcceptKeepsStatuses(b, order);
    ShippingUntouched(move, b, b');
  }

  /** Reserving ships nothing. */
  lemma ShippingUntouched(move: Move, b: Books, b': Books)
    requires Valid(b) && !move.Dispatching?
    requires b'.allocations == Walk(move, b.allocations, b.stock).allocations
    requires b'.shipmentLines == b.shipmentLines && b.shipments <= b'.shipments
    ensures ShippingRecorded(b')
  {
    WalkRows(move, b.allocations, b.stock);
    forall line ensures UnitsOut(b'.allocations, line) == Dispatched(b'.shipmentLines, line) {
      WalkShips(move, b.allocations, b.stock, line);
    }
    forall i | 0 <= i < |b'.allocations| && b'.allocations[i].status == Shipped
      ensures InHistory(b'.allocations[i].id, b'.shipmentLines)
    {
      assert Follows(move, b.allocations[i], b'.allocations[i]);
      assert InHistory(b.allocations[i].id, b.shipmentLines);
    }
    forall j | 0 <= j < |b'.shipmentLines| ensures FromShipment(b'.shipmentLines[j], b'.shipments) {
      assert FromShipment(b.shipmentLines[j], b.shipments);
    }
  }

  // ------------------------------------------------------------------ dispatch

  lemma {:induction false} DispatchedConcat(a: seq<ShipmentLine>, b: seq<ShipmentLine>, line: LineId)
    ensures Dispatched(a + b, line) == Dispatched(a, line) + Dispatched(b, line)
    ensures Invoiced(a + b, line) == Invoiced(a, line) + Invoiced(b, line)
  {
    if a == [] {
      assert a + b == b;
    } else {
      DispatchedConcat(a[1..], b, line);
      assert (a + b)[1..] == a[1..] + b;
    }
  }

  /** The shipment lines of a dispatch carry what the moved rows had outstanding. */
  lemma {:induction false} LinesForMoved(shipment: nat, moved: seq<Allocation>, line: LineId)
    ensures Dispatched(ShipmentLinesFor(shipment, moved), line) == UnitsLeft(moved, line)
    ensures Invoiced(ShipmentLinesFor(shipment, moved), line) == 0
  {
    if moved != [] {
      LinesForMoved(shipment, moved[1..], line);
      assert ShipmentLinesFor(shipment, moved)[1..] == ShipmentLinesFor(shipment, moved[1..]);
    }
  }

  lemma ShipBalances(
      move: Move, rows: seq<Allocation>, stock: StockTable, lines: seq<ShipmentLine>, shipment: nat, line: LineId)
    requires move.Dispatching? && UnitsOut(rows, line) == Dispatched(lines, line)
    ensures var p := Walk(move, rows, stock);
            UnitsOut(p.allocations, line) == Dispatched(lines + ShipmentLinesFor(shipment, p.moved), line)
  {
    var p := Walk(move, rows, stock);
    WalkShips(move, rows, stock, line);
    DispatchedConcat(lines, ShipmentLinesFor(shipment, p.moved), line);
    LinesForMoved(shipment, p.moved, line);
  }

  lemma ShipLinesBelong(
      move: Move, moved: seq<Allocation>, lines: seq<ShipmentLine>, shipments: seq<Shipment>, shipment: nat)
    requires AllFromShipments(lines, shipments) && shipment < |shipments|
    requires move == Dispatching(shipments[shipment].order, shipments[shipment].warehouse)
    requires forall k :: 0 <= k < |moved| ==> Eligible(move, moved[k])
    ensures AllFromShipments(lines + ShipmentLinesFor(shipment, moved),
                             shipments[shipment := shipments[shipment].(status := ShipmentOut)])
  {
    var all := lines + ShipmentLinesFor(shipment, moved);
    var shipments' := shipments[shipment := shipments[shipment].(status := ShipmentOut)];
    forall j | 0 <= j < |all| ensures FromShipment(all[j], shipments') {
      if j < |lines| {
        assert FromShipment(lines[j], shipments);
      } else {
        assert Eligible(move, moved[j - |lines|]);
      }
    }
  }

  lemma ShipHistory(move: Move, rows: seq<Allocation>, stock: StockTable, lines: seq<ShipmentLine>, shipment: nat)
    requires ShippedInHistory(rows, lines)
    ensures var p := Walk(move, rows, stock);
            ShippedInHistory(p.allocations, lines + ShipmentLinesFor(shipment, p.moved))
  {
    WalkRows(move, rows, stock);
    var p := Walk(move, rows, stock);
    var all := lines + ShipmentLinesFor(shipment, p.moved);
    forall i | 0 <= i < |p.allocations| && p.allocations[i].status == Shipped
      ensures InHistory(p.allocations[i].id, all)
    {
      assert Follows(move, rows[i], p.allocations[i]) && SameRow(rows[i], p.allocations[i]);
      if p.allocations[i] == rows[i] {
        assert InHistory(rows[i].id, lines);
        var j :| 0 <= j < |lines| && lines[j].allocation == rows[i].id;
        assert all[j] == lines[j];
      } else {
        assert rows[i] in p.moved;
        var k :| 0 <= k < |p.moved| && p.moved[k] == rows[i];
        assert all[|lines| + k].allocation == rows[i].id;
      }
    }
  }

  lemma ShipRecords(b: Books, shipment: nat)
    requires Valid(b) && Ship(b, shipment).Committed?
    ensures ShippingRecorded(Ship(b, shipment).value)
  {
    var s := b.shipments[shipment];
    var move := Dispatching(s.order, s.warehouse);
    var p := Walk(move, b.allocations, b.stock);
    var b' := Ship(b, shipment).value;
    forall line ensures UnitsOut(b'.allocations, line) == Dispatched(b'.shipmentLines, line) {
      assert UnitsOut(b.allocations, line) == Dispatched(b.shipmentLines, line);
      ShipBalances(move, b.allocations, b.stock, b.shipmentLines, shipment, line);
    }
    ShipHistory(move, b.allocations, b.stock, b.shipmentLines, shipment);
    WalkRows(move, b.allocations, b.stock);
    forall k | 0 <= k < |p.moved| ensures Eligible(move, p.moved[k]) { assert p.moved[k] in p.moved; }
    ShipLinesBelong(move, p.moved, b.shipmentLines, b.shipments, shipment);
  }

  /** Dispatching a shipment leaves nothing reserved for its order at its warehouse. */
  lemma ShipClearsTheShelf(b: Books, shipment: nat)
    requires Valid(b) && Ship(b, shipment).Committed?
    ensures var s := b.shipments[shipment];
            forall i :: 0 <= i < |Ship(b, shipment).value.allocations| ==>
              !(Ship(b, shipment).value.allocations[i].line.order == s.order
                && Ship(b, shipment).value.allocations[i].warehouse == s.warehouse
                && Ship(b, shipment).value.allocations[i].status == Reserved)
  {
    var s := b.shipments[shipment];
    var move := Dispatching(s.order, s.warehouse);
    var p := Walk(move, b.allocations, b.stock);
    WalkRows(move, b.allocations, b.stock);
    forall i | 0 <= i < |p.allocations|
      ensures !(p.allocations[i].line.order == s.order && p.allocations[i].warehouse == s.warehouse
              && p.allocations[i].status == Reserved)
    {
      assert Sound(b.allocations[i]);
      assert Follows(move, b.allocations[i], p.allocations[i]) && SameRow(b.allocations[i], p.allocations[i]);
    }
  }

  /** The clamp at zero and the CHECK constraints of stock_items never bite: a dispatch
      is refused only for the reasons its own code names. */
  lemma ShipNeverHitsTheChecks(b: Books, shipment: nat)
    requires Valid(b)
    ensures Ship(b, shipment) != Refused(ConstraintViolated)
    ensures shipment < |b.shipments| ==>
              var s := b.shipments[shipment];
              var p := Walk(Dispatching(s.order, s.warehouse), b.allocations, b.stock);
              forall key :: key in b.stock ==>
                key in p.stock && p.stock[key].Available() == b.stock[key].Available()
  {
    if shipment < |b.shipments| {
      var s := b.shipments[shipment];
      WalkBalances(Dispatching(s.order, s.warehouse), b.allocations, b.stock);
      var p := Walk(Dispatching(s.order, s.warehouse), b.allocations, b.stock);
      forall key | key in b.stock ensures key in p.stock && p.stock[key].Available() == b.stock[key].Available() {
        assert p.stock[key].onHand - b.stock[key].onHand == p.stock[key].reserved - b.stock[key].reserved;
      }
    }
  }

  lemma ShipKeepsPlanned(b: Books, shipment: nat)
    requires Valid(b) && Ship(b, shipment).Committed?
    ensures ReservedIsPlanned(Ship(b, shipment).value.allocations, Ship(b, shipment).value.shipments)
  {
    var s := b.shipments[shipment];
    var move := Dispatching(s.order, s.warehouse);
    var p := Walk(move, b.allocations, b.stock);
    var b' := Ship(b, shipment).value;
    WalkRows(move, b.allocations, b.stock);
    ShipClearsTheShelf(b, shipment);
    forall i | 0 <= i < |b'.allocations| && b'.allocations[i].status == Reserved
      ensures HasPlannedShipment(b'.shipments, b'.allocations[i].line.order, b'.allocations[i].warehouse)
    {
      assert Follows(move, b.allocations[i], p.allocations[i]) && SameRow(b.allocations[i], p.allocations[i]);
      var want := Shipment(b.allocations[i].line.order, b.allocations[i].warehouse, ShipmentPlanned);
      assert HasPlannedShipment(b.shipments, want.order, want.warehouse);
      var k :| 0 <= k < |b.shipments| && b.shipments[k] == want;
      assert k != shipment;
      assert b'.shipments[k] == want;
    }
  }

  lemma ShipKeepsStatuses(b: Books, shipment: nat)
    requires Valid(b) && Ship(b, shipment).Committed?
    ensures StatusesRolled(Ship(b, shipment).value.allocations, Ship(b, shipment).value.orders, {})
  {
    var s := b.shipments[shipment];
    var move := Dispatching(s.order, s.warehouse);
    var b' := Ship(b, shipment).value;
    WalkRows(move, b.allocations, b.stock);
    forall o | o in b'.orders
      ensures b'.orders[o].status == RollUp(StatusesOf(b'.allocations, o)) ||
              (StatusesOf(b'.allocations, o) == {} && b'.orders[o].status == SplitPending)
    {
      if o != s.order { WalkKeepsStatuses(move, b, o); }
    }
  }

  lemma ShipKeepsRows(b: Books, shipment: nat)
    requires Valid(b) && Ship(b, shipment).Committed?
    ensures var b' := Ship(b, shipment).value;
            && StockChecks(b'.stock) && WithinReserved(b'.allocations, b'.stock)
            && OrdersPositive(b'.orders) && RowsValid(b'.allocations, b'.orders, b'.nextAllocation)
            && Allocated(b'.allocations, b'.orders, {})
  {
    var s, b' := b.shipments[shipment], Ship(b, shipment).value;
    WalkKeepsRows(Dispatching(s.order, s.warehouse), b);
    SameLinesKeep(b'.allocations, b.orders, b'.orders, b.nextAllocation);
  }

  lemma ShipKeepsValid(b: Books, shipment: nat)
    requires Valid(b) && Ship(b, shipment).Committed?
    ensures Valid(Ship(b, shipment).value)
  {
    ShipKeepsRows(b, shipment);
    ShipRecords(b, shipment);
    ShipKeepsPlanned(b, shipment);
    ShipLeavesBilling(b, shipment);
    ShipKeepsStatuses(b, shipment);
  }

  lemma ShipLeavesBilling(b: Books, shipment: nat)
    requires Valid(b) && Ship(b, shipment).Committed?
    ensures BilledOnce(Ship(b, shipment).value.shipmentLines, Ship(b, shipment).value.billed)
  {
    var b' := Ship(b, shipment).value;
    forall k | 0 <= k < |b'.billed| ensures BillsInFull(b'.billed[k], b'.shipmentLines) {
      assert BillsInFull(b.billed[k], b.shipmentLines);
    }
    forall j | 0 <= j < |b'.shipmentLines| && b'.shipmentLines[j].invoiced > 0 ensures IsBilled(j, b'.billed) {
      assert b'.shipmentLines[j] == b.shipmentLines[j];
    }
  }

  // ----------------------------------------------------------------- the sweep

  lemma {:induction false} ConsolidatedCovers(shipments: seq<Shipment>, moved: seq<Allocation>)
    ensures shipments <= Consolidated(shipments, moved)
    ensures forall a :: a in moved ==> HasPlannedShipment(Consolidated(shipments, moved), a.line.order, a.warehouse)
    decreases |moved|
  {
    if moved != [] {
      var a := moved[0];
      var next := if HasPlannedShipment(shipments, a.line.order, a.warehouse) then shipments
                  else shipments + [Shipment(a.line.order, a.warehouse, ShipmentPlanned)];
      ConsolidatedCovers(next, moved[1..]);
      assert HasPlannedShipment(next, a.line.order, a.warehouse);
      forall x | x in moved ensures HasPlannedShipment(Consolidated(shipments, moved), x.line.order, x.warehouse) {
        assert x == moved[0] || x in moved[1..];
      }
    }
  }

  lemma SweepKeepsPlanned(b: Books)
    requires Valid(b)
    ensures ReservedIsPlanned(ConsolidateBackorders(b).allocations, ConsolidateBackorders(b).shipments)
  {
    var p := Walk(Sweeping, b.allocations, b.stock);
    var b' := ConsolidateBackorders(b);
    WalkRows(Sweeping, b.allocations, b.stock);
    ConsolidatedCovers(b.shipments, p.moved);
    forall i | 0 <= i < |b'.allocations| && b'.allocations[i].status == Reserved
      ensures HasPlannedShipment(b'.shipments, b'.allocations[i].line.order, b'.allocations[i].warehouse)
    {
      assert Follows(Sweeping, b.allocations[i], p.allocations[i]) && SameRow(b.allocations[i], p.allocations[i]);
      if p.allocations[i] != b.allocations[i] {
        assert b.allocations[i] in p.moved;
      } else {
        assert HasPlannedShipment(b.shipments, b.allocations[i].line.order, b.allocations[i].warehouse);
      }
    }
  }

  lemma SweepKeepsStatuses(b: Books)
    requires Valid(b)
    ensures StatusesRolled(ConsolidateBackorders(b).allocations, ConsolidateBackorders(b).orders, {})
  {
    var p := Walk(Sweeping, b.allocations, b.stock);
    var b' := ConsolidateBackorders(b);
    forall o | o in b'.orders
      ensures b'.orders[o].status == RollUp(StatusesOf(b'.allocations, o)) ||
              (StatusesOf(b'.allocations, o) == {} && b'.orders[o].status == SplitPending)
    {
      if o !in OrdersOf(p.moved) { WalkKeepsStatuses(Sweeping, b, o); }
    }
  }

  lemma SweepKeepsShipping(b: Books)
    requires Valid(b)
    ensures ShippingRecorded(ConsolidateBackorders(b))
    ensures SameLines(b.orders, ConsolidateBackorders(b).orders)
  {
    ConsolidatedCovers(b.shipments, Walk(Sweeping, b.allocations, b.stock).moved);
    ShippingUntouched(Sweeping, b, ConsolidateBackorders(b));
  }

  lemma SweepKeepsValid(b: Books)
    requires Valid(b)
    ensures Valid(ConsolidateBackorders(b))
  {
    var b' := ConsolidateBackorders(b);
    WalkKeepsRows(Sweeping, b);
    SweepKeepsPlanned(b);
    SweepKeepsStatuses(b);
    SweepKeepsShipping(b);
    SameLinesKeep(b'.allocations, b.orders, b'.orders, b.nextAllocation);
  }

  /** A second sweep straight after a first changes nothing: no row still backordered
      fits on its shelf. */
  lemma SweepIsAFixpoint(b: Books)
    requires Valid(b)
    ensures var swept := ConsolidateBackorders(b);
            && NoneCoverable(swept.allocations, swept.stock)
            && ConsolidateBackorders(swept) == swept
  {
    SweepIsMaximal(b.allocations, b.stock);
    var swept := ConsolidateBackorders(b);
    SweepStops(swept.allocations, swept.stock);
    assert Rolled(swept.orders, swept.allocations, OrdersOf([])) == swept.orders;
  }

  // ----------------------------------------------------------- restock, billing

  /** A restock never reaches below what is already held. */
  lemma {:induction false} RestockKeepsValid(b: Books, key: ShelfKey, quantity: int)
    requires Valid(b) && Restock(b, key, quantity).Committed?
    ensures Valid(Restock(b, key, quantity).value)
  {
    var b' := Restock(b, key, quantity).value;
    forall k ensures Held(b'.allocations, k) <= ReservedAt(b'.stock, k) {
      assert Held(b.allocations, k) <= ReservedAt(b.stock, k);
    }
    forall i | 0 <= i < |b'.allocations| ensures Placed(b'.allocations[i], b'.orders) {
      assert Placed(b.allocations[i], b.orders);
    }
  }

  predicate Issued(x: BilledLine, lines: seq<ShipmentLine>, order: OrderId, index: nat) {
    && index <= x.shipmentLine < |lines| && Billable(lines[x.shipmentLine], order)
    && x.quantity == lines[x.shipmentLine].quantity - lines[x.shipmentLine].invoiced
  }

  lemma BilledStep(lines: seq<ShipmentLine>, order: OrderId, index: nat, invoice: nat)
    requires index < |lines|
    ensures var issued, rest := BilledFrom(lines, order, index, invoice), BilledFrom(lines, order, index + 1, invoice);
            if Billable(lines[index], order)
            then issued == [BilledLine(invoice, index, lines[index].quantity - lines[index].invoiced)] + rest
            else issued == rest
  {
    var rest := BilledFrom(lines, order, index + 1, invoice);
    if !Billable(lines[index], order) {
      var none: seq<BilledLine> := [];
      assert none + rest == rest;
    }
  }

  lemma {:induction false} BilledRows(lines: seq<ShipmentLine>, order: OrderId, index: nat, invoice: nat, k: nat)
    requires index <= |lines| && k < |BilledFrom(lines, order, index, invoice)|
    ensures Issued(BilledFrom(lines, order, index, invoice)[k], lines, order, index)
    decreases |lines| - index
  {
    BilledStep(lines, order, index, invoice);
    if !Billable(lines[index], order) {
      BilledRows(lines, order, index + 1, invoice, k);
    } else if k > 0 {
      BilledRows(lines, order, index + 1, invoice, k - 1);
    }
  }

  lemma {:induction false} BilledAscend(
      lines: seq<ShipmentLine>, order: OrderId, index: nat, invoice: nat, k: nat, m: nat)
    requires index <= |lines| && k < m < |BilledFrom(lines, order, index, invoice)|
    ensures var bills := BilledFrom(lines, order, index, invoice); bills[k].shipmentLine < bills[m].shipmentLine
    decreases |lines| - index
  {
    BilledStep(lines, order, index, invoice);
    if !Billable(lines[index], order) {
      BilledAscend(lines, order, index + 1, invoice, k, m);
    } else if k > 0 {
      BilledAscend(lines, order, index + 1, invoice, k - 1, m - 1);
    } else {
      BilledRows(lines, order, index + 1, invoice, m - 1);
    }
  }

  lemma {:induction false} BilledAll(lines: seq<ShipmentLine>, order: OrderId, index: nat, invoice: nat, j: nat)
    requires index <= j < |lines| && Billable(lines[j], order)
    ensures IsBilled(j, BilledFrom(lines, order, index, invoice))
    decreases |lines| - index
  {
    var issued, rest := BilledFrom(lines, order, index, invoice), BilledFrom(lines, order, index + 1, invoice);
    if index == j {
      assert issued[0].shipmentLine == j;
    } else {
      BilledAll(lines, order, index + 1, invoice, j);
      var k :| 0 <= k < |rest| && rest[k].shipmentLine == j;
      assert issued[|issued| - |rest| + k] == rest[k];
    }
  }

  /** An invoice's lines: every billable shipment line, once, in order and in full. */
  lemma BilledFromIs(lines: seq<ShipmentLine>, order: OrderId, invoice: nat)
    ensures var issued := BilledFrom(lines, order, 0, invoice);
            && (forall k :: 0 <= k < |issued| ==> Issued(issued[k], lines, order, 0))
            && (forall k, m :: 0 <= k < m < |issued| ==> issued[k].shipmentLine < issued[m].shipmentLine)
            && (forall j :: 0 <= j < |lines| && Billable(lines[j], order) ==> IsBilled(j, issued))
  {
    var issued := BilledFrom(lines, order, 0, invoice);
    forall k | 0 <= k < |issued| ensures Issued(issued[k], lines, order, 0) {
      BilledRows(lines, order, 0, invoice, k);
    }
    forall k, m | 0 <= k < m < |issued| ensures issued[k].shipmentLine < issued[m].shipmentLine {
      BilledAscend(lines, order, 0, invoice, k, m);
    }
    forall j | 0 <= j < |lines| && Billable(lines[j], order) ensures IsBilled(j, BilledFrom(lines, order, 0, invoice)) {
      BilledAll(lines, order, 0, invoice, j);
    }
  }

  lemma {:induction false} SameDispatched(lines: seq<ShipmentLine>, order: OrderId, line: LineId)
    ensures Dispatched(MarkBilled(lines, order), line) == Dispatched(lines, line)
  {
    if lines != [] {
      SameDispatched(lines[1..], order, line);
      assert MarkBilled(lines, order)[1..] == MarkBilled(lines[1..], order);
    }
  }

  lemma InvoiceKeepsValid(b: Books, order: OrderId)
    requires Valid(b)
    ensures Valid(InvoiceShipped(b, order))
  {
    var b' := InvoiceShipped(b, order);
    var issued := BilledFrom(b.shipmentLines, order, 0, b.nextInvoice);
    if issued != [] {
      forall line ensures UnitsOut(b'.allocations, line) == Dispatched(b'.shipmentLines, line) {
        SameDispatched(b.shipmentLines, order, line);
      }
      forall j | 0 <= j < |b'.shipmentLines| ensures FromShipment(b'.shipmentLines[j], b'.shipments) {
        assert FromShipment(b.shipmentLines[j], b.shipments);
      }
      forall i | 0 <= i < |b'.allocations| && b'.allocations[i].status == Shipped
        ensures InHistory(b'.allocations[i].id, b'.shipmentLines)
      {
        assert InHistory(b.allocations[i].id, b.shipmentLines);
        var j :| 0 <= j < |b.shipmentLines| && b.shipmentLines[j].allocation == b.allocations[i].id;
        assert b'.shipmentLines[j].allocation == b.allocations[i].id;
      }
      InvoiceBillsOnce(b, order);
    }
  }

  lemma InvoiceBillsInFull(b: Books, order: OrderId)
    requires Valid(b) && BilledFrom(b.shipmentLines, order, 0, b.nextInvoice) != []
    ensures var b' := InvoiceShipped(b, order);
            && (forall k :: 0 <= k < |b'.billed| ==> BillsInFull(b'.billed[k], b'.shipmentLines))
            && (forall k :: 0 <= k < |b.billed| ==> !Billable(b.shipmentLines[b.billed[k].shipmentLine], order))
  {
    var b' := InvoiceShipped(b, order);
    var issued := BilledFrom(b.shipmentLines, order, 0, b.nextInvoice);
    BilledFromIs(b.shipmentLines, order, b.nextInvoice);
    forall k | 0 <= k < |b'.billed|
      ensures BillsInFull(b'.billed[k], b'.shipmentLines)
      ensures k < |b.billed| ==> !Billable(b.shipmentLines[b'.billed[k].shipmentLine], order)
    {
      if k < |b.billed| {
        assert BillsInFull(b.billed[k], b.shipmentLines);
      } else {
        assert Issued(issued[k - |b.billed|], b.shipmentLines, order, 0);
      }
    }
    forall k | 0 <= k < |b.billed| ensures !Billable(b.shipmentLines[b.billed[k].shipmentLine], order) {
      assert b'.billed[k] == b.billed[k];
    }
  }

  lemma InvoiceBillsAll(b: Books, order: OrderId, j: nat)
    requires Valid(b) && BilledFrom(b.shipmentLines, order, 0, b.nextInvoice) != []
    requires j < |b.shipmentLines| && InvoiceShipped(b, order).shipmentLines[j].invoiced > 0
    ensures IsBilled(j, InvoiceShipped(b, order).billed)
  {
    var billed, issued := InvoiceShipped(b, order).billed, BilledFrom(b.shipmentLines, order, 0, b.nextInvoice);
    BilledFromIs(b.shipmentLines, order, b.nextInvoice);
    if Billable(b.shipmentLines[j], order) {
      assert IsBilled(j, issued);
      var k :| 0 <= k < |issued| && issued[k].shipmentLine == j;
      assert billed[|b.billed| + k].shipmentLine == j;
    } else {
      assert IsBilled(j, b.billed);
      var k :| 0 <= k < |b.billed| && b.billed[k].shipmentLine == j;
      assert billed[k].shipmentLine == j;
    }
  }

  lemma InvoiceBillsOnce(b: Books, order: OrderId)
    requires Valid(b) && BilledFrom(b.shipmentLines, order, 0, b.nextInvoice) != []
    ensures BilledOnce(InvoiceShipped(b, order).shipmentLines, InvoiceShipped(b, order).billed)
  {
    var b' := InvoiceShipped(b, order);
    var issued := BilledFrom(b.shipmentLines, order, 0, b.nextInvoice);
    BilledFromIs(b.shipmentLines, order, b.nextInvoice);
    InvoiceBillsInFull(b, order);
    forall j | 0 <= j < |b'.shipmentLines| && b'.shipmentLines[j].invoiced > 0 ensures IsBilled(j, b'.billed) {
      InvoiceBillsAll(b, order, j);
    }
    forall k, m | 0 <= k < m < |b'.billed| ensures b'.billed[k].shipmentLine != b'.billed[m].shipmentLine {
      if m >= |b.billed| {
        assert b'.billed[m] == issued[m - |b.billed|] && Issued(issued[m - |b.billed|], b.shipmentLines, order, 0);
        if k >= |b.billed| { assert b'.billed[k] == issued[k - |b.billed|]; }
      }
    }
  }

  lemma {:induction false} NothingBillable(lines: seq<ShipmentLine>, order: OrderId, index: nat, invoice: nat)
    requires index <= |lines|
    requires forall j :: 0 <= j < |lines| ==> !Billable(lines[j], order)
    ensures BilledFrom(lines, order, index, invoice) == []
    decreases |lines| - index
  {
    if index < |lines| { NothingBillable(lines, order, index + 1, invoice); }
  }

  /** An immediate second billing run issues nothing. */
  lemma SecondInvoiceIsEmpty(b: Books, order: OrderId)
    ensures var once := InvoiceShipped(b, order); InvoiceShipped(once, order) == once
  {
    var once := InvoiceShipped(b, order);
    if once != b {
      NothingBillable(once.shipmentLines, order, 0, once.nextInvoice);
    }
  }

  // -------------------------------------------------------------------- runs

  /** The invariant leans on no warehouse being active, cheap or even listed. */
  lemma WarehouseKeepsValid(b: Books, w: Warehouse)
    requires Valid(b)
    ensures Valid(SaveWarehouse(b, w))
  {
  }

  lemma CallKeepsValid(b: Books, call: Call)
    requires Valid(b)
    ensures Valid(After(Attempt(b, call), b))
  {
    if Attempt(b, call).Committed? {
      match call
      case DoOpen(order, lines) => OpenKeepsValid(b, order, lines);
      case DoPlan(order) => PlanKeepsValid(b, order);
      case DoAccept(order) => AcceptKeepsValid(b, order);
      case DoOverride(order, rows) => OverrideKeepsValid(b, order, rows);
      case DoShip(shipment) => ShipKeepsValid(b, shipment);
      case DoSweep => SweepKeepsValid(b);
      case DoRestock(key, quantity) => RestockKeepsValid(b, key, quantity);
      case DoInvoice(order) => InvoiceKeepsValid(b, order);
      case DoWarehouse(w) => WarehouseKeepsValid(b, w);
    }
  }

  /** Every reachable state of the tables satisfies the invariant. */
  lemma {:induction false} RunKeepsValid(warehouses: seq<Warehouse>, calls: seq<Call>)
    ensures Valid(Run(Opening(warehouses), calls))
  {
    if calls != [] {
      RunKeepsValid(warehouses, calls[..|calls| - 1]);
      CallKeepsValid(Run(Opening(warehouses), calls[..|calls| - 1]), calls[|calls| - 1]);
    }
  }
}
