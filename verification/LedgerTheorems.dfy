/** The promises of the fulfillment ledger, over every run of its calls. */
module LedgerTheorems {
  import opened Outcomes
  import opened SplitPlanner
  import opened Ledger
  import opened LedgerWalk
  import opened LedgerPlan
  import opened LedgerInvariant
  import opened LedgerCalls

  // ------------------------------------------------------- the reservation ledger

  /** After any run the units RESERVED allocations still hold on a shelf are at most its
      reserved count, which is at most what is on hand; so nothing is oversold, on-hand
      never goes negative and a dispatch never meets the CHECK constraints. */
  lemma {:induction false} ReservationLedger(warehouses: seq<Warehouse>, calls: seq<Call>, key: ShelfKey, shipment: nat)
    ensures var b := Run(Opening(warehouses), calls);
            && Held(b.allocations, key) <= ReservedAt(b.stock, key)
            && (key in b.stock ==> ReservedAt(b.stock, key) <= b.stock[key].onHand)
            && 0 <= AvailableAt(b.stock, key)
            && Ship(b, shipment) != Refused(ConstraintViolated)
  {
    RunKeepsValid(warehouses, calls);
    var b := Run(Opening(warehouses), calls);
    assert Held(b.allocations, key) <= ReservedAt(b.stock, key);
    ShipNeverHitsTheChecks(b, shipment);
  }

  /** Every reserved unit is held by some allocation, and no unit is held twice. */
  ghost predicate ExactRows(rows: seq<Allocation>, stock: StockTable) {
    forall key :: Held(rows, key) == ReservedAt(stock, key)
  }

  ghost predicate Exact(b: Books) { ExactRows(b.allocations, b.stock) }

  predicate HoldsReserved(b: Books, order: OrderId) {
    exists i :: 0 <= i < |b.allocations| && b.allocations[i].line.order == order && b.allocations[i].status == Reserved
  }

  /** The call throws away a plan that holds reserved stock. */
  predicate DropsReserved(b: Books, call: Call) {
    match call
    case DoPlan(order) => HoldsReserved(b, order)
    case DoOverride(order, _) => HoldsReserved(b, order)
    case _ => false
  }

  lemma {:induction false} HeldForSomeone(rows: seq<Allocation>, order: OrderId, i: nat)
    requires AllSound(rows) && i < |rows| && rows[i].line.order == order && rows[i].status == Reserved
    ensures HeldFor(rows, order, Shelf(rows[i])) > 0
  {
    assert Sound(rows[0]) && Sound(rows[i]);
    if i > 0 {
      HeldForSomeone(rows[1..], order, i - 1);
    } else {
      WithoutHeld(rows[1..], order, Shelf(rows[0]));
    }
  }

  lemma {:induction false} HeldForNoOne(rows: seq<Allocation>, order: OrderId, key: ShelfKey)
    requires forall i :: 0 <= i < |rows| && rows[i].line.order == order ==> rows[i].status != Reserved
    ensures HeldFor(rows, order, key) == 0
  {
    if rows != [] { HeldForNoOne(rows[1..], order, key); }
  }

  /** Replacing a plan keeps the ledger exact if and only if the old plan held nothing:
      the code deletes reserved rows without giving their units back. */
  lemma ReplacementIsExactIff(b: Books, order: OrderId, rows: seq<Allocation>, status: FulfillmentStatus)
    requires Valid(b) && Exact(b) && order in b.orders
    requires ReplacementFor(rows, order, b.orders[order].lines, b.nextAllocation)
    ensures Exact(Replaced(b, order, rows, status)) <==> !HoldsReserved(b, order)
  {
    var b' := Replaced(b, order, rows, status);
    forall key ensures Held(b'.allocations, key) == ReservedAt(b'.stock, key) - HeldFor(b.allocations, order, key) {
      ReplacementHeld(b, order, rows, key);
      assert Held(b.allocations, key) == ReservedAt(b.stock, key);
    }
    if HoldsReserved(b, order) {
      var i :| 0 <= i < |b.allocations| && b.allocations[i].line.order == order && b.allocations[i].status == Reserved;
      HeldForSomeone(b.allocations, order, i);
      assert Held(b'.allocations, Shelf(b.allocations[i])) < ReservedAt(b'.stock, Shelf(b.allocations[i]));
    } else {
      forall key ensures Held(b'.allocations, key) == ReservedAt(b'.stock, key) {
        HeldForNoOne(b.allocations, order, key);
      }
    }
  }

  lemma WalkIsExact(b: Books, move: Move)
    requires Valid(b) && Exact(b)
    ensures ExactRows(Walk(move, b.allocations, b.stock).allocations, Walk(move, b.allocations, b.stock).stock)
  {
    WalkBalances(move, b.allocations, b.stock);
    var p := Walk(move, b.allocations, b.stock);
    forall key ensures Held(p.allocations, key) == ReservedAt(p.stock, key) {
      assert Held(b.allocations, key) == ReservedAt(b.stock, key);
    }
  }

  lemma PlanIsExactIff(b: Books, order: OrderId)
    requires Valid(b) && Exact(b) && PlanSplit(b, order).Committed?
    ensures Exact(PlanSplit(b, order).value) <==> !HoldsReserved(b, order)
  {
    var lines := b.orders[order].lines;
    PlanFromCovers(b, order, lines, 0, b.nextAllocation);
    var rows := PlanFrom(b, order, lines, 0, b.nextAllocation).value;
    ReplacementIsExactIff(b, order, rows, if AnyBackordered(rows) then Backorder else SplitPending);
  }

  lemma OpenIsExact(b: Books, order: OrderId, lines: seq<OrderLine>)
    requires Valid(b) && Exact(b) && OpenOrder(b, order, lines).Committed?
    ensures Exact(OpenOrder(b, order, lines).value)
  {
    var started := b.(orders := b.orders[order := Order(lines, false, SplitPending)]);
    PlanFromCovers(started, order, lines, 0, b.nextAllocation);
    var rows := PlanFrom(started, order, lines, 0, b.nextAllocation).value;
    var b' := OpenOrder(b, order, lines).value;
    forall i | 0 <= i < |b.allocations| ensures b.allocations[i].line.order != order {
      assert Placed(b.allocations[i], b.orders);
    }
    forall key ensures Held(b'.allocations, key) == ReservedAt(b'.stock, key) {
      ReplacementHeld(started, order, rows, key);
      HeldForNoOne(b.allocations, order, key);
      assert Held(b.allocations, key) == ReservedAt(b.stock, key);
    }
  }

  lemma OverrideIsExactIff(b: Books, order: OrderId, rows: seq<OverrideRow>)
    requires Valid(b) && Exact(b) && ManualOverride(b, order, rows).Committed?
    ensures Exact(ManualOverride(b, order, rows).value) <==> !HoldsReserved(b, order)
  {
    var lines := b.orders[order].lines;
    RowsAreOverridable(lines, rows);
    OverrideReplaces(b, order, rows);
    var written := OverrideRowsFrom(order, lines, rows, b.nextAllocation);
    ReplacementIsExactIff(b, order, written, RollUp(StatusesOf(written, order)));
  }

  /** A call that commits keeps the ledger exact if and only if it does not drop a plan
      that holds reserved stock. */
  lemma CallIsExactIff(b: Books, call: Call)
    requires Valid(b) && Exact(b) && Attempt(b, call).Committed?
    ensures Exact(Attempt(b, call).value) <==> !DropsReserved(b, call)
  {
    match call
    case DoOpen(order, lines) => OpenIsExact(b, order, lines);
    case DoPlan(order) => PlanIsExactIff(b, order);
    case DoAccept(order) => WalkIsExact(b, Accepting(order));
    case DoOverride(order, rows) => OverrideIsExactIff(b, order, rows);
    case DoShip(shipment) => WalkIsExact(b, Dispatching(b.shipments[shipment].order, b.shipments[shipment].warehouse));
    case DoSweep => WalkIsExact(b, Sweeping);
    case DoRestock(key, quantity) =>
      var b' := Restock(b, key, quantity).value;
      forall k ensures Held(b'.allocations, k) == ReservedAt(b'.stock, k) {
        assert Held(b.allocations, k) == ReservedAt(b.stock, k);
      }
    case DoInvoice(order) =>
    case DoWarehouse(w) =>
  }

  /** No call of the run drops reserved stock. */
  ghost predicate NeverDropsReserved(b: Books, calls: seq<Call>) {
    calls == [] ||
    (NeverDropsReserved(b, calls[..|calls| - 1]) && !DropsReserved(Run(b, calls[..|calls| - 1]), calls[|calls| - 1]))
  }

  /** On such runs reserved units and held units are equal shelf by shelf. */
  lemma {:induction false} ExactOnCarefulRuns(warehouses: seq<Warehouse>, calls: seq<Call>)
    requires NeverDropsReserved(Opening(warehouses), calls)
    ensures Exact(Run(Opening(warehouses), calls))
  {
    if calls != [] {
      var before := Run(Opening(warehouses), calls[..|calls| - 1]);
      ExactOnCarefulRuns(warehouses, calls[..|calls| - 1]);
      RunKeepsValid(warehouses, calls[..|calls| - 1]);
      if Attempt(before, calls[|calls| - 1]).Committed? {
        CallIsExactIff(before, calls[|calls| - 1]);
      }
    }
  }

  /** Careless runs exist: an order is backordered, the sweep reserves its unit before
      anyone accepts the split, and a manual override then deletes the reserved row.  The
      shelf keeps one unit reserved that no allocation holds. */
  lemma ReservedUnitLeaks() returns (warehouses: seq<Warehouse>, calls: seq<Call>, key: ShelfKey)
    ensures var b := Run(Opening(warehouses), calls);
            ReservedAt(b.stock, key) == 1 && Held(b.allocations, key) == 0
  {
    key, warehouses := ShelfKey(1, 7), [Warehouse(1, true, 0, 0, 0)];
    var lines, rows := [OrderLine(Some(7), 1, false)], [OverrideRow(0, 1, 1, true)];
    calls := [DoOpen(0, lines), DoRestock(key, 1), DoSweep, DoOverride(0, rows)];
    LeakingRun(warehouses, lines, rows, 0, 1, key);
  }

  lemma LeakingRun(warehouses: seq<Warehouse>, lines: seq<OrderLine>, rows: seq<OverrideRow>, order: OrderId,
      units: int, key: ShelfKey)
    requires order == 0 && units == 1 && key == ShelfKey(1, 7) && warehouses == [Warehouse(1, true, 0, 0, 0)]
    requires lines == [OrderLine(Some(7), 1, false)] && rows == [OverrideRow(0, 1, 1, true)]
    ensures var b := Run(Opening(warehouses),
            [DoOpen(order, lines), DoRestock(key, units), DoSweep, DoOverride(order, rows)]);
            ReservedAt(b.stock, key) == 1 && Held(b.allocations, key) == 0
  {
    var calls := [DoOpen(order, lines), DoRestock(key, units), DoSweep, DoOverride(order, rows)];
    var b1 := OpensShort(Opening(warehouses), lines);
    var b2 := RestocksOne(b1, key);
    var b3 := SweepReserves(b2);
    var b4 := OverrideCommitsHere(b3, lines, rows);
    RunOfFour(Opening(warehouses), calls, b1, b2, b3, b4);
  }

  lemma RestocksOne(b: Books, key: ShelfKey) returns (b': Books)
    requires b.warehouses == [Warehouse(1, true, 0, 0, 0)] && b.stock == map[] && key == ShelfKey(1, 7)
    ensures Attempt(b, DoRestock(key, 1)) == Committed(b') && b' == b.(stock := map[key := Stock(1, 0)])
  {
    assert b.warehouses[0].id == key.warehouse;
    b' := b.(stock := map[key := Stock(1, 0)]);
  }

  lemma RunOfFour(b: Books, calls: seq<Call>, b1: Books, b2: Books, b3: Books, b4: Books)
    requires |calls| == 4
    requires Attempt(b, calls[0]) == Committed(b1) && Attempt(b1, calls[1]) == Committed(b2)
    requires Attempt(b2, calls[2]) == Committed(b3) && Attempt(b3, calls[3]) == Committed(b4)
    ensures Run(b, calls) == b4
  {
    RunSnoc(b, [], calls[0]);
    RunSnoc(b, calls[..1], calls[1]);
    RunSnoc(b, calls[..2], calls[2]);
    RunSnoc(b, calls[..3], calls[3]);
    assert [] + [calls[0]] == calls[..1] && calls[..1] + [calls[1]] == calls[..2];
    assert calls[..2] + [calls[2]] == calls[..3] && calls[..3] + [calls[3]] == calls;
  }

  lemma RunSnoc(b: Books, calls: seq<Call>, call: Call)
    ensures Run(b, calls + [call]) == After(Attempt(Run(b, calls), call), Run(b, calls))
  {
    assert (calls + [call])[..|calls|] == calls;
  }

  lemma OpensShort(b: Books, lines: seq<OrderLine>) returns (b': Books)
    requires b == Opening([Warehouse(1, true, 0, 0, 0)]) && lines == [OrderLine(Some(7), 1, false)]
    ensures Attempt(b, DoOpen(0, lines)) == Committed(b')
    ensures b' == b.(allocations := [Allocation(0, LineId(0, 0), 1, 7, 1, 0, Backordered)], nextAllocation := 1,
                     orders := map[0 := Order(lines, false, Backorder)])
  {
    var row := Allocation(0, LineId(0, 0), 1, 7, 1, 0, Backordered);
    var started := b.(orders := map[0 := Order(lines, false, SplitPending)]);
    OnlyABackorder(started, lines[0], row);
    assert PlanFrom(started, 0, lines, 1, 1) == Some([]);
    assert [row] + [] == [row];
    assert PlanFrom(started, 0, lines, 0, 0) == Some([row]);
    assert [row][0].status == Backordered;
    b' := PlanSplit(started, 0).value;
  }

  lemma SweepReserves(b: Books) returns (b': Books)
    requires b.allocations == [Allocation(0, LineId(0, 0), 1, 7, 1, 0, Backordered)]
    requires b.stock == map[ShelfKey(1, 7) := Stock(1, 0)]
    requires 0 in b.orders
    ensures Attempt(b, DoSweep) == Committed(b')
    ensures ReservedAt(b'.stock, ShelfKey(1, 7)) == 1
    ensures |b'.allocations| == 1 && b'.allocations[0].line.order == 0
    ensures 0 in b'.orders && b'.orders[0].lines == b.orders[0].lines && b'.orders[0].accepted == b.orders[0].accepted
    ensures b'.warehouses == b.warehouses && b'.shipmentLines == b.shipmentLines
  {
    var row, held := b.allocations[0], Hold(b.stock, ShelfKey(1, 7), 1);
    assert Walk(Sweeping, b.allocations[1..], held) == Pass([], held, []);
    assert Walk(Sweeping, b.allocations, b.stock).stock == held;
    b' := ConsolidateBackorders(b);
  }

  lemma OnlyABackorder(b: Books, line: OrderLine, row: Allocation)
    requires b.warehouses == [Warehouse(1, true, 0, 0, 0)] && b.stock == map[]
    requires line == OrderLine(Some(7), 1, false) && row == Allocation(0, LineId(0, 0), 1, 7, 1, 0, Backordered)
    ensures PlanLine(b, LineId(0, 0), line, 0) == Some([row])
  {
    assert DefaultWarehouse(b.warehouses[1..]).None?;
    assert StockFor(b.warehouses[1..], b.stock, 7) == [];
    var shelves := StockFor(b.warehouses, b.stock, 7);
    assert shelves == [] && Depths(shelves) == [];
    assert Takes(Depths(shelves), 1) == [];
    assert [] + [row] == [row];
  }

  lemma OverrideCommitsHere(b: Books, lines: seq<OrderLine>, rows: seq<OverrideRow>) returns (b': Books)
    requires lines == [OrderLine(Some(7), 1, false)] && rows == [OverrideRow(0, 1, 1, true)]
    requires 0 in b.orders && b.orders[0].lines == lines && !b.orders[0].accepted
    requires b.warehouses == [Warehouse(1, true, 0, 0, 0)] && b.shipmentLines == []
    requires |b.allocations| == 1 && b.allocations[0].line.order == 0
    ensures Attempt(b, DoOverride(0, rows)) == Committed(b')
    ensures Held(b'.allocations, ShelfKey(1, 7)) == 0 && b'.stock == b.stock
  {
    assert RowProblem(lines, rows[1..]).None?;
    assert RowProblem(lines, rows).None?;
    assert Supplied(rows[1..], 0) == 0;
    assert AllSupplied(lines, rows);
    assert WithinShelves(lines, rows, b.stock);
    assert !HasHistory(b, 0);
    assert b.warehouses[0].id == rows[0].warehouse;
    assert RowReferencesHold(b, lines, rows);
    assert Without(b.allocations[1..], 0) == [];
    var written := OverrideRowsFrom(0, lines, rows, b.nextAllocation);
    NewRowsHoldNothing(Without(b.allocations, 0) + written, ShelfKey(1, 7));
    b' := ManualOverride(b, 0, rows).value;
  }

  // ------------------------------------------------------------ unit conservation

  lemma {:induction false} OutWithinUnits(rows: seq<Allocation>, line: LineId)
    requires AllSound(rows)
    ensures 0 <= UnitsOut(rows, line) <= Units(rows, line)
  {
    if rows != [] {
      assert Sound(rows[0]);
      OutWithinUnits(rows[1..], line);
    }
  }

  lemma {:induction false} InvoicedWithinDispatched(lines: seq<ShipmentLine>, line: LineId)
    requires forall j :: 0 <= j < |lines| ==> 0 <= lines[j].invoiced <= lines[j].quantity
    ensures 0 <= Invoiced(lines, line) <= Dispatched(lines, line)
  {
    if lines != [] { InvoicedWithinDispatched(lines[1..], line); }
  }

  /** Units of an order line across all one-time invoice lines. */
  function BilledUnits(billed: seq<BilledLine>, lines: seq<ShipmentLine>, line: LineId): int {
    if billed == [] then 0
    else
      (if billed[0].shipmentLine < |lines| && lines[billed[0].shipmentLine].line == line then billed[0].quantity else 0)
      + BilledUnits(billed[1..], lines, line)
  }

  lemma {:induction false} BilledUnitsConcat(
      a: seq<BilledLine>, b: seq<BilledLine>, lines: seq<ShipmentLine>, line: LineId)
    ensures BilledUnits(a + b, lines, line) == BilledUnits(a, lines, line) + BilledUnits(b, lines, line)
  {
    if a == [] {
      assert a + b == b;
    } else {
      BilledUnitsConcat(a[1..], b, lines, line);
      assert (a + b)[1..] == a[1..] + b;
    }
  }

  lemma {:induction false} BilledUnitsShorter(billed: seq<BilledLine>, lines: seq<ShipmentLine>, line: LineId)
    requires lines != [] && forall k :: 0 <= k < |billed| ==> billed[k].shipmentLine < |lines| - 1
    ensures BilledUnits(billed, lines, line) == BilledUnits(billed, lines[..|lines| - 1], line)
  {
    if billed != [] { BilledUnitsShorter(billed[1..], lines, line); }
  }

  /** Invoice lines and the `quantity_invoiced` counters count the same units. */
  lemma {:induction false} BilledUnitsAreInvoiced(billed: seq<BilledLine>, lines: seq<ShipmentLine>, line: LineId)
    requires BilledOnce(lines, billed)
    ensures BilledUnits(billed, lines, line) == Invoiced(lines, line)
    decreases |lines|
  {
    if lines == [] {
      assert billed != [] ==> BillsInFull(billed[0], lines);
    } else {
      var rest := DropLastLine(billed, lines, line);
      BilledUnitsAreInvoiced(rest, lines[..|lines| - 1], line);
    }
  }

  /** Takes the last shipment line, and its bill if it has one, off both counts. */
  lemma DropLastLine(billed: seq<BilledLine>, lines: seq<ShipmentLine>, line: LineId) returns (rest: seq<BilledLine>)
    requires BilledOnce(lines, billed) && lines != []
    ensures BilledOnce(lines[..|lines| - 1], rest)
    ensures BilledUnits(billed, lines, line) - BilledUnits(rest, lines[..|lines| - 1], line)
              == Invoiced(lines, line) - Invoiced(lines[..|lines| - 1], line)
  {
    var n := |lines| - 1;
    var front := lines[..n];
    DispatchedConcat(front, [lines[n]], line);
    assert front + [lines[n]] == lines;
    assert Invoiced([lines[n]], line) == if lines[n].line == line then lines[n].invoiced else 0;
    if IsBilled(n, billed) {
      var k :| 0 <= k < |billed| && billed[k].shipmentLine == n;
      rest := billed[..k] + billed[k + 1..];
      RemoveBill(billed, lines, k);
      RemoveBillUnits(billed, lines, k, line);
    } else {
      rest := billed;
      forall m | 0 <= m < |billed| ensures BillsInFull(billed[m], front) { assert BillsInFull(billed[m], lines); }
    }
    forall m | 0 <= m < |rest| ensures rest[m].shipmentLine < n { assert BillsInFull(rest[m], front); }
    BilledUnitsShorter(rest, lines, line);
  }

  lemma RemoveBillUnits(billed: seq<BilledLine>, lines: seq<ShipmentLine>, k: nat, line: LineId)
    requires k < |billed| && BillsInFull(billed[k], lines)
    ensures BilledUnits(billed, lines, line) ==
              BilledUnits(billed[..k] + billed[k + 1..], lines, line)
              + if lines[billed[k].shipmentLine].line == line then lines[billed[k].shipmentLine].invoiced else 0
  {
    assert billed == billed[..k] + ([billed[k]] + billed[k + 1..]);
    BilledUnitsConcat(billed[..k], [billed[k]] + billed[k + 1..], lines, line);
    BilledUnitsConcat([billed[k]], billed[k + 1..], lines, line);
    BilledUnitsConcat(billed[..k], billed[k + 1..], lines, line);
    assert BilledUnits([billed[k]], lines, line)
        == if lines[billed[k].shipmentLine].line == line then billed[k].quantity else 0;
  }

  lemma RemoveBill(billed: seq<BilledLine>, lines: seq<ShipmentLine>, k: nat)
    requires BilledOnce(lines, billed) && lines != []
    requires k < |billed| && billed[k].shipmentLine == |lines| - 1
    ensures BillsInFull(billed[k], lines)
    ensures BilledOnce(lines[..|lines| - 1], billed[..k] + billed[k + 1..])
  {
    var front, rest := lines[..|lines| - 1], billed[..k] + billed[k + 1..];
    forall m | 0 <= m < |rest| ensures BillsInFull(rest[m], front) {
      assert rest[m] == billed[if m < k then m else m + 1];
      assert BillsInFull(billed[if m < k then m else m + 1], lines);
    }
    forall j | 0 <= j < |front| && front[j].invoiced > 0 ensures IsBilled(j, rest) {
      assert IsBilled(j, billed);
      var m :| 0 <= m < |billed| && billed[m].shipmentLine == j;
      assert m != k;
      assert rest[if m < k then m else m - 1] == billed[m];
    }
  }

  /** End to end, for every line of every order after any run: units billed are at most
      the units on shipment lines, which are exactly the units the allocations shipped,
      which are at most the units allocated, which are exactly what was ordered. */
  lemma UnitConservation(warehouses: seq<Warehouse>, calls: seq<Call>, o: OrderId, p: nat)
    requires o in Run(Opening(warehouses), calls).orders
    requires p < |Run(Opening(warehouses), calls).orders[o].lines|
    ensures var b := Run(Opening(warehouses), calls);
            var line := LineId(o, p);
            && 0 <= BilledUnits(b.billed, b.shipmentLines, line) <= Dispatched(b.shipmentLines, line)
            && Dispatched(b.shipmentLines, line) == UnitsOut(b.allocations, line)
            && UnitsOut(b.allocations, line) <= Units(b.allocations, line)
            && Units(b.allocations, line) == if Physical(b.orders[o].lines[p]) then b.orders[o].lines[p].quantity else 0
  {
    RunKeepsValid(warehouses, calls);
    var b := Run(Opening(warehouses), calls);
    BilledUnitsAreInvoiced(b.billed, b.shipmentLines, LineId(o, p));
    forall j | 0 <= j < |b.shipmentLines| ensures 0 <= b.shipmentLines[j].invoiced <= b.shipmentLines[j].quantity {
      assert FromShipment(b.shipmentLines[j], b.shipments);
    }
    InvoicedWithinDispatched(b.shipmentLines, LineId(o, p));
    OutWithinUnits(b.allocations, LineId(o, p));
    assert UnitsOut(b.allocations, LineId(o, p)) == Dispatched(b.shipmentLines, LineId(o, p));
  }

  /** Nothing is billed before it ships: every invoice line bills, in full and alone, a
      shipment line of a shipment that has gone out. */
  lemma NothingBilledBeforeItShips(warehouses: seq<Warehouse>, calls: seq<Call>, k: nat)
    requires k < |Run(Opening(warehouses), calls).billed|
    ensures var b := Run(Opening(warehouses), calls);
            var bill := b.billed[k];
            && bill.shipmentLine < |b.shipmentLines|
            && bill.quantity == b.shipmentLines[bill.shipmentLine].quantity
            && b.shipmentLines[bill.shipmentLine].shipment < |b.shipments|
            && b.shipments[b.shipmentLines[bill.shipmentLine].shipment].status == ShipmentOut
            && (forall m :: 0 <= m < |b.billed| && m != k ==> b.billed[m].shipmentLine != bill.shipmentLine)
  {
    RunKeepsValid(warehouses, calls);
    var b := Run(Opening(warehouses), calls);
    assert BillsInFull(b.billed[k], b.shipmentLines);
    assert FromShipment(b.shipmentLines[b.billed[k].shipmentLine], b.shipments);
    forall m | 0 <= m < |b.billed| && m != k ensures b.billed[m].shipmentLine != b.billed[k].shipmentLine {
      if m < k { assert b.billed[m].shipmentLine != b.billed[k].shipmentLine; }
    }
  }

  // --------------------------------------------------- nothing gets stuck

  /** Accepting a split leaves no row of the order planned: each is reserved, or backordered
      because its shelf cannot cover it. */
  lemma AcceptSettlesTheOrder(b: Books, order: OrderId, i: nat)
    requires Valid(b) && AcceptSplit(b, order).Committed?
    requires i < |b.allocations| && b.allocations[i].line.order == order && b.allocations[i].status == Planned
    ensures var b' := AcceptSplit(b, order).value;
            && i < |b'.allocations| && SameRow(b.allocations[i], b'.allocations[i])
            && Settled(b'.allocations[i], b'.stock)
  {
    WalkRows(Accepting(order), b.allocations, b.stock);
    AcceptIsMaximal(order, b.allocations, b.stock, i);
  }

  /** After any run, whatever is reserved can leave: its order has a planned shipment at its
      warehouse, dispatching that shipment commits, and the row is then shipped in full. */
  lemma ReservedCanShip(warehouses: seq<Warehouse>, calls: seq<Call>, i: nat) returns (shipment: nat)
    requires var b := Run(Opening(warehouses), calls); i < |b.allocations| && b.allocations[i].status == Reserved
    ensures var b := Run(Opening(warehouses), calls);
            var a := b.allocations[i];
            && shipment < |b.shipments| && b.shipments[shipment] == Shipment(a.line.order, a.warehouse, ShipmentPlanned)
            && Ship(b, shipment).Committed?
            && i < |Ship(b, shipment).value.allocations|
            && Ship(b, shipment).value.allocations[i] == a.(shipped := a.quantity, status := Shipped)
  {
    var b := Run(Opening(warehouses), calls);
    RunKeepsValid(warehouses, calls);
    shipment := PlannedShipmentOf(b, i);
    DispatchShips(b, shipment, i);
  }

  lemma PlannedShipmentOf(b: Books, i: nat) returns (shipment: nat)
    requires Valid(b) && i < |b.allocations| && b.allocations[i].status == Reserved
    ensures shipment < |b.shipments|
    ensures b.shipments[shipment] == Shipment(b.allocations[i].line.order, b.allocations[i].warehouse, ShipmentPlanned)
  {
    var a := b.allocations[i];
    assert HasPlannedShipment(b.shipments, a.line.order, a.warehouse);
    shipment :| 0 <= shipment < |b.shipments|
        && b.shipments[shipment] == Shipment(a.line.order, a.warehouse, ShipmentPlanned);
  }

  lemma DispatchShips(b: Books, shipment: nat, i: nat)
    requires Valid(b) && i < |b.allocations| && b.allocations[i].status == Reserved && shipment < |b.shipments|
    requires b.shipments[shipment] == Shipment(b.allocations[i].line.order, b.allocations[i].warehouse, ShipmentPlanned)
    ensures Ship(b, shipment).Committed? && i < |Ship(b, shipment).value.allocations|
    ensures Ship(b, shipment).value.allocations[i]
            == b.allocations[i].(shipped := b.allocations[i].quantity, status := Shipped)
  {
    var a := b.allocations[i];
    var move := Dispatching(a.line.order, a.warehouse);
    assert Sound(a) && Placed(a, b.orders);
    WalkRows(move, b.allocations, b.stock);
    assert Follows(move, a, Walk(move, b.allocations, b.stock).allocations[i]);
    ShipNeverHitsTheChecks(b, shipment);
  }

  // ------------------------------------------------------ what a status tells

  lemma {:induction false} AllOutIff(rows: seq<Allocation>, line: LineId)
    requires AllSound(rows)
    ensures UnitsOut(rows, line) == Units(rows, line)
            <==> forall i :: 0 <= i < |rows| && rows[i].line == line ==> rows[i].status == Shipped
  {
    if rows != [] {
      assert Sound(rows[0]);
      AllOutIff(rows[1..], line);
      OutWithinUnits(rows[1..], line);
      if forall i :: 0 <= i < |rows[1..]| && rows[1..][i].line == line ==> rows[1..][i].status == Shipped {
        if rows[0].line != line || rows[0].status == Shipped {
          forall i | 0 <= i < |rows| && rows[i].line == line ensures rows[i].status == Shipped {
            if i > 0 { assert rows[i] == rows[1..][i - 1]; }
          }
        }
      } else {
        var i :| 0 <= i < |rows[1..]| && rows[1..][i].line == line && rows[1..][i].status != Shipped;
        assert rows[i + 1] == rows[1..][i];
      }
    }
  }

  predicate AllShipped(rows: seq<Allocation>, order: OrderId) {
    forall i :: 0 <= i < |rows| && rows[i].line.order == order ==> rows[i].status == Shipped
  }

  /** With something to ship, the roll-up says FULFILLED exactly when all of it has left. */
  lemma FulfilledIffAllShipped(rows: seq<Allocation>, order: OrderId, k: nat)
    requires k < |rows| && rows[k].line.order == order
    ensures RollUp(StatusesOf(rows, order)) == Fulfilled <==> AllShipped(rows, order)
  {
    var statuses := StatusesOf(rows, order);
    assert rows[k] in rows && rows[k].status in statuses;
    if AllShipped(rows, order) {
      assert statuses == {Shipped};
    } else {
      var i :| 0 <= i < |rows| && rows[i].line.order == order && rows[i].status != Shipped;
      assert rows[i] in rows && rows[i].status in statuses;
    }
  }

  lemma {:induction false} SomeRowOf(rows: seq<Allocation>, line: LineId) returns (k: nat)
    requires Units(rows, line) != 0
    ensures k < |rows| && rows[k].line == line
  {
    if rows[0].line == line { return 0; }
    k := SomeRowOf(rows[1..], line);
    k := k + 1;
  }

  /** After any run an order with something to ship is FULFILLED if and only if every unit
      ordered on every physical line is on a shipment that has gone out. */
  lemma FulfilledIffEverythingLeft(warehouses: seq<Warehouse>, calls: seq<Call>, o: OrderId, p: nat)
    requires var b := Run(Opening(warehouses), calls);
             o in b.orders && p < |b.orders[o].lines| && Physical(b.orders[o].lines[p])
    ensures var b := Run(Opening(warehouses), calls);
            b.orders[o].status == Fulfilled
            <==> forall q :: 0 <= q < |b.orders[o].lines| && Physical(b.orders[o].lines[q]) ==> LineLeft(b, o, q)
  {
    var b := Run(Opening(warehouses), calls);
    RunKeepsValid(warehouses, calls);
    FulfilledInValid(b, o, p);
  }

  predicate LineLeft(b: Books, o: OrderId, q: nat)
    requires o in b.orders && q < |b.orders[o].lines|
  {
    Dispatched(b.shipmentLines, LineId(o, q)) == b.orders[o].lines[q].quantity
  }

  lemma LineLeftIff(b: Books, o: OrderId, q: nat)
    requires Valid(b) && o in b.orders && q < |b.orders[o].lines| && Physical(b.orders[o].lines[q])
    ensures LineLeft(b, o, q)
            <==> forall i :: 0 <= i < |b.allocations| && b.allocations[i].line == LineId(o, q) ==>
                b.allocations[i].status == Shipped
  {
    AllOutIff(b.allocations, LineId(o, q));
    assert UnitsOut(b.allocations, LineId(o, q)) == Dispatched(b.shipmentLines, LineId(o, q));
    assert Units(b.allocations, LineId(o, q)) == b.orders[o].lines[q].quantity;
  }

  lemma AllShippedIff(b: Books, o: OrderId)
    requires Valid(b) && o in b.orders
    ensures AllShipped(b.allocations, o)
            <==> forall q :: 0 <= q < |b.orders[o].lines| && Physical(b.orders[o].lines[q]) ==> LineLeft(b, o, q)
  {
    forall q | 0 <= q < |b.orders[o].lines| && Physical(b.orders[o].lines[q])
      ensures AllShipped(b.allocations, o) ==> LineLeft(b, o, q)
    {
      LineLeftIff(b, o, q);
    }
    if !AllShipped(b.allocations, o) {
      var i :| 0 <= i < |b.allocations| && b.allocations[i].line.order == o && b.allocations[i].status != Shipped;
      assert Placed(b.allocations[i], b.orders);
      LineLeftIff(b, o, b.allocations[i].line.position);
      assert b.allocations[i].line == LineId(o, b.allocations[i].line.position);
    }
  }

  lemma FulfilledInValid(b: Books, o: OrderId, p: nat)
    requires Valid(b) && o in b.orders && p < |b.orders[o].lines| && Physical(b.orders[o].lines[p])
    ensures b.orders[o].status == Fulfilled
            <==> forall q :: 0 <= q < |b.orders[o].lines| && Physical(b.orders[o].lines[q]) ==> LineLeft(b, o, q)
  {
    var rows, lines := b.allocations, b.orders[o].lines;
    assert lines[p].quantity > 0 && Units(rows, LineId(o, p)) == lines[p].quantity;
    var k := SomeRowOf(rows, LineId(o, p));
    FulfilledIffAllShipped(rows, o, k);
    assert rows[k] in rows && rows[k].status in StatusesOf(rows, o);
    AllShippedIff(b, o);
  }
}
