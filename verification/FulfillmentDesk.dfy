/** The fulfillment service itself: the loops that read and update the tables, each
    proved to have the effect `Ledger` gives it.  A refused call changes nothing. */
module FulfillmentDesk {
  import opened Outcomes
  import opened Numbers
  import opened SplitPlanner
  import opened Ledger
  import opened LedgerPlan
  import opened LedgerInvariant
  import opened LedgerCalls

  /** The rows, and the units, the shelves from i on give when `wanted` is still wanted. */
  ghost function StillPlanned(
      id: LineId, variant: VariantId, shelves: seq<ShelfRow>, i: nat, wanted: int, next: nat): seq<Allocation>
    requires i <= |shelves|
  {
    TakesLength(Depths(shelves[i..]), wanted);
    PlannedRows(id, variant, shelves[i..], Takes(Depths(shelves[i..]), wanted), next)
  }

  ghost function StillTaken(shelves: seq<ShelfRow>, i: nat, wanted: int): int
    requires i <= |shelves|
  {
    Sum(Takes(Depths(shelves[i..]), wanted))
  }

  lemma OneShelf(id: LineId, variant: VariantId, shelves: seq<ShelfRow>, i: nat, wanted: int, next: nat)
    requires i < |shelves| && wanted > 0
    ensures var take := Min(wanted, shelves[i].available);
            if take > 0 then
              && StillTaken(shelves, i, wanted) == take + StillTaken(shelves, i + 1, wanted - take)
              && StillPlanned(id, variant, shelves, i, wanted, next)
                 == [Allocation(next, id, shelves[i].warehouse, variant, take, 0, Planned)]
                    + StillPlanned(id, variant, shelves, i + 1, wanted - take, next + 1)
            else
              && StillTaken(shelves, i, wanted) == StillTaken(shelves, i + 1, wanted)
              && StillPlanned(id, variant, shelves, i, wanted, next)
                 == StillPlanned(id, variant, shelves, i + 1, wanted, next)
  {
    var rest := shelves[i..];
    TakesLength(Depths(rest), wanted);
    assert Depths(rest)[0] == shelves[i].available && Depths(rest)[1..] == Depths(shelves[i + 1..]);
    assert rest[1..] == shelves[i + 1..];
    var take := Min(wanted, shelves[i].available);
    var given := if take > 0 then take else 0;
    assert Takes(Depths(rest), wanted) == [given] + Takes(Depths(shelves[i + 1..]), wanted - given);
    TakesLength(Depths(shelves[i + 1..]), wanted - given);
  }

  lemma NoShelf(id: LineId, variant: VariantId, shelves: seq<ShelfRow>, i: nat, wanted: int, next: nat)
    requires i <= |shelves| && (i == |shelves| || wanted <= 0)
    ensures StillTaken(shelves, i, wanted) == 0 && StillPlanned(id, variant, shelves, i, wanted, next) == []
  {
    if wanted <= 0 { NoMoreTakes(id, variant, shelves[i..], wanted, next); }
  }

  lemma Regroup(a: seq<Allocation>, b: seq<Allocation>, c: seq<Allocation>)
    ensures a + (b + c) == (a + b) + c
  {
  }

  /** The planner's inner loop for one line. */
  method SplitLine(id: LineId, variant: VariantId, shelves: seq<ShelfRow>, quantity: int, next: nat)
    returns (rows: seq<Allocation>, remaining: int)
    ensures |Takes(Depths(shelves), quantity)| == |shelves|
    ensures rows == PlannedRows(id, variant, shelves, Takes(Depths(shelves), quantity), next)
    ensures remaining == quantity - Sum(Takes(Depths(shelves), quantity))
  {
    TakesLength(Depths(shelves), quantity);
    assert shelves[0..] == shelves;
    rows, remaining := [], quantity;
    var i := 0;
    while i < |shelves| && remaining > 0
      invariant 0 <= i <= |shelves|
      invariant rows + StillPlanned(id, variant, shelves, i, remaining, next + |rows|)
                == StillPlanned(id, variant, shelves, 0, quantity, next)
      invariant remaining - StillTaken(shelves, i, remaining) == quantity - StillTaken(shelves, 0, quantity)
    {
      OneShelf(id, variant, shelves, i, remaining, next + |rows|);
      var take := Min(remaining, shelves[i].available);
      if take > 0 {
        var drawn := [Allocation(next + |rows|, id, shelves[i].warehouse, variant, take, 0, Planned)];
        Regroup(rows, drawn, StillPlanned(id, variant, shelves, i + 1, remaining - take, next + |rows| + 1));
        rows := rows + drawn;
        remaining := remaining - take;
      }
      i := i + 1;
    }
    NoShelf(id, variant, shelves, i, remaining, next + |rows|);
    assert rows + [] == rows;
  }

  /** The pass still to come, behind what is already done. */
  function Behind(done: seq<Allocation>, rest: Pass, moved: seq<Allocation>): Pass {
    Pass(done + rest.allocations, rest.stock, moved + rest.moved)
  }

  function Counting(moved: seq<Allocation>, move: Move, a: Allocation, stock: StockTable): seq<Allocation> {
    if Succeeds(move, a, stock) then moved + [a] else moved
  }

  lemma OneMore(
      move: Move, done: seq<Allocation>, rows: seq<Allocation>, i: nat, stock: StockTable, moved: seq<Allocation>)
    requires i < |rows|
    ensures Behind(done, Walk(move, rows[i..], stock), moved)
         == Behind(done + [MovedRow(move, rows[i], stock)], Walk(move, rows[i + 1..], MovedStock(move, rows[i], stock)),
                   Counting(moved, move, rows[i], stock))
  {
    assert rows[i..][0] == rows[i] && rows[i..][1..] == rows[i + 1..];
    var a, rest := rows[i], Walk(move, rows[i + 1..], MovedStock(move, rows[i], stock));
    assert done + ([MovedRow(move, a, stock)] + rest.allocations)
        == done + [MovedRow(move, a, stock)] + rest.allocations;
    assert moved + ([a] + rest.moved) == moved + [a] + rest.moved;
    assert [] + rest.moved == rest.moved;
  }

  // The loops, over the rows and the stock table they update.

  /** Holds each planned allocation of the order, or backorders it when its shelf no
      longer covers it. */
  method HoldPlanned(rows: seq<Allocation>, before: StockTable, order: OrderId)
    returns (updated: seq<Allocation>, stock: StockTable, moved: seq<Allocation>)
    ensures Pass(updated, stock, moved) == Walk(Accepting(order), rows, before)
  {
    ghost var move := Accepting(order);
    updated, stock, moved := [], before, [];
    for i := 0 to |rows|
      invariant Behind(updated, Walk(move, rows[i..], stock), moved) == Walk(move, rows, before)
    {
      var a := rows[i];
      OneMore(move, updated, rows, i, stock, moved);
      if a.status == Planned && a.line.order == order {
        var key := ShelfKey(a.warehouse, a.variant);
        if key !in stock || stock[key].Available() < a.quantity {
          a := a.(status := Backordered);
        } else {
          stock := stock[key := stock[key].(reserved := stock[key].reserved + a.quantity)];
          moved := moved + [a];
          a := a.(status := Reserved);
        }
      }
      updated := updated + [a];
    }
  }

  /** The warehouses drawn on, in the order they were first touched. */
  method WarehousesTouched(moved: seq<Allocation>) returns (byWarehouse: seq<WarehouseId>)
    ensures byWarehouse == WarehousesOf(moved)
  {
    byWarehouse := [];
    for i := 0 to |moved|
      invariant byWarehouse == WarehousesOf(moved[..i])
    {
      assert moved[..i + 1][..i] == moved[..i];
      if moved[i].warehouse !in byWarehouse { byWarehouse := byWarehouse + [moved[i].warehouse]; }
    }
    assert moved[..|moved|] == moved;
  }

  /** Both stock counters drop for every reserved allocation of the order at the
      warehouse, and each leaves a shipment line behind. */
  method DispatchReserved(
      rows: seq<Allocation>, before: StockTable, shipment: nat, order: OrderId, warehouse: WarehouseId)
    returns (updated: seq<Allocation>, stock: StockTable, lines: seq<ShipmentLine>)
    ensures var p := Walk(Dispatching(order, warehouse), rows, before);
            updated == p.allocations && stock == p.stock && lines == ShipmentLinesFor(shipment, p.moved)
  {
    ghost var move := Dispatching(order, warehouse);
    ghost var moved: seq<Allocation> := [];
    updated, stock, lines := [], before, [];
    for i := 0 to |rows|
      invariant Behind(updated, Walk(move, rows[i..], stock), moved) == Walk(move, rows, before)
      invariant lines == ShipmentLinesFor(shipment, moved)
    {
      var a := rows[i];
      OneMore(move, updated, rows, i, stock, moved);
      var outstanding := a.quantity - a.shipped;
      if a.line.order == order && a.warehouse == warehouse && a.status == Reserved && outstanding > 0 {
        var key := ShelfKey(a.warehouse, a.variant);
        if key in stock {
          var left := stock[key].reserved - outstanding;
          stock := stock[key := Stock(stock[key].onHand - outstanding, if left < 0 then 0 else left)];
        }
        lines := lines + [ShipmentLine(shipment, a.id, a.line, outstanding, 0)];
        moved := moved + [a];
        a := a.(shipped := a.shipped + outstanding, status := Shipped);
      }
      updated := updated + [a];
    }
  }

  /** Reserves every backorder its shelf can now cover, oldest first. */
  method ReserveBackorders(rows: seq<Allocation>, before: StockTable)
    returns (updated: seq<Allocation>, stock: StockTable, moved: seq<Allocation>)
    ensures Pass(updated, stock, moved) == Walk(Sweeping, rows, before)
  {
    updated, stock, moved := [], before, [];
    for i := 0 to |rows|
      invariant Behind(updated, Walk(Sweeping, rows[i..], stock), moved) == Walk(Sweeping, rows, before)
    {
      var a := rows[i];
      OneMore(Sweeping, updated, rows, i, stock, moved);
      if a.status == Backordered {
        var key := ShelfKey(a.warehouse, a.variant);
        if key in stock && stock[key].Available() >= a.quantity {
          stock := stock[key := stock[key].(reserved := stock[key].reserved + a.quantity)];
          moved := moved + [a];
          a := a.(status := Reserved);
        }
      }
      updated := updated + [a];
    }
  }

  /** Folds each newly reserved row into its warehouse's planned shipment, opening one
      where there is none. */
  method FoldShipments(shipments: seq<Shipment>, moved: seq<Allocation>) returns (folded: seq<Shipment>)
    ensures folded == Consolidated(shipments, moved)
  {
    folded := shipments;
    for i := 0 to |moved|
      invariant Consolidated(folded, moved[i..]) == Consolidated(shipments, moved)
    {
      var a := moved[i];
      assert moved[i..][1..] == moved[i + 1..];
      if !HasPlannedShipment(folded, a.line.order, a.warehouse) {
        folded := folded + [Shipment(a.line.order, a.warehouse, ShipmentPlanned)];
      }
    }
  }

  /** One PLANNED shipment per warehouse drawn on. */
  method OpenShipments(order: OrderId, byWarehouse: seq<WarehouseId>) returns (planned: seq<Shipment>)
    ensures planned == PlannedShipments(order, byWarehouse)
  {
    planned := [];
    for k := 0 to |byWarehouse|
      invariant planned == PlannedShipments(order, byWarehouse)[..k]
    {
      planned := planned + [Shipment(order, byWarehouse[k], ShipmentPlanned)];
    }
  }

  /** One line of the plan: the greedy draws, then one backorder for what is short. */
  method PlanOne(b: Books, id: LineId, line: OrderLine, next: nat)
    returns (planned: Option<seq<Allocation>>, short: bool)
    ensures planned == PlanLine(b, id, line, next)
    ensures planned.Some? ==> short == AnyBackordered(planned.value)
  {
    short := false;
    if line.recurring || line.variant.None? { return Some([]), false; }
    var variant := line.variant.value;
    var shelves := StockFor(b.warehouses, b.stock, variant);
    var rows, remaining := SplitLine(id, variant, shelves, line.quantity, next);
    PlannedRowsStatus(id, variant, shelves, Takes(Depths(shelves), line.quantity), next);
    if remaining > 0 {
      var fallback := DefaultWarehouse(b.warehouses);
      if fallback.None? { return None, true; }
      rows := rows + [Allocation(next + |rows|, id, fallback.value.id, variant, remaining, 0, Backordered)];
      assert rows[|rows| - 1].status == Backordered;
      short := true;
    }
    planned := Some(rows);
  }

  /** The planner's outer loop: skips what has no stock behind it, splits every other
      line, and books what nothing can cover as a backorder. */
  method PlanLines(b: Books, order: OrderId, lines: seq<OrderLine>)
    returns (planned: Option<seq<Allocation>>, backordered: bool)
    ensures planned == PlanFrom(b, order, lines, 0, b.nextAllocation)
    ensures planned.Some? ==> backordered == AnyBackordered(planned.value)
  {
    var rows: seq<Allocation> := [];
    var next := b.nextAllocation;
    backordered := false;
    assert forall later: seq<Allocation> :: rows + later == later;
    for position := 0 to |lines|
      invariant next == b.nextAllocation + |rows|
      invariant PlanFrom(b, order, lines, 0, b.nextAllocation)
          == Prefixed(rows, PlanFrom(b, order, lines, position, next))
      invariant backordered == AnyBackordered(rows)
    {
      var line, short := PlanOne(b, LineId(order, position), lines[position], next);
      if line.None? { return None, backordered; }
      var here := line.value;
      PlanFromUnfolds(b, order, lines, position, next, here);
      PrefixedTwice(rows, here, PlanFrom(b, order, lines, position + 1, next + |here|));
      AnyBackorderedConcat(rows, here);
      backordered := backordered || short;
      rows, next := rows + here, next + |here|;
    }
    assert rows + [] == rows;
    planned := Some(rows);
  }

  function Prefixed(rows: seq<Allocation>, later: Option<seq<Allocation>>): Option<seq<Allocation>> {
    if later.None? then None else Some(rows + later.value)
  }

  lemma PlanFromUnfolds(
      b: Books, order: OrderId, lines: seq<OrderLine>, position: nat, next: nat, here: seq<Allocation>)
    requires position < |lines|
    requires PlanLine(b, LineId(order, position), lines[position], next) == Some(here)
    ensures PlanFrom(b, order, lines, position, next)
            == Prefixed(here, PlanFrom(b, order, lines, position + 1, next + |here|))
  {
  }

  lemma PrefixedTwice(rows: seq<Allocation>, here: seq<Allocation>, later: Option<seq<Allocation>>)
    ensures Prefixed(rows, Prefixed(here, later)) == Prefixed(rows + here, later)
  {
    if later.Some? { assert rows + (here + later.value) == rows + here + later.value; }
  }

  lemma AnyBackorderedConcat(x: seq<Allocation>, y: seq<Allocation>)
    ensures AnyBackordered(x + y) <==> AnyBackordered(x) || AnyBackordered(y)
  {
    if AnyBackordered(x) {
      var i :| 0 <= i < |x| && x[i].status == Backordered;
      assert (x + y)[i] == x[i];
    }
    if AnyBackordered(y) {
      var i :| 0 <= i < |y| && y[i].status == Backordered;
      assert (x + y)[|x| + i] == y[i];
    }
  }

  method RollUpEach(orders: map<OrderId, Order>, allocations: seq<Allocation>, touched: set<OrderId>)
    returns (rolled: map<OrderId, Order>)
    ensures rolled == Rolled(orders, allocations, touched)
  {
    var rolling := touched;
    rolled := orders;
    while rolling != {}
      invariant rolling <= touched
      invariant rolled == Rolled(orders, allocations, touched - rolling)
      decreases |rolling|
    {
      var order :| order in rolling;
      if order in rolled {
        rolled := rolled[order := rolled[order].(status := RollUp(StatusesOf(allocations, order)))];
      }
      rolling := rolling - {order};
    }
    assert touched - rolling == touched;
  }

  /** Collects an invoice line for every unbilled shipment line of the order and marks
      its units billed, so a second run finds none. */
  method BillLines(lines: seq<ShipmentLine>, order: OrderId, invoice: nat)
    returns (marked: seq<ShipmentLine>, issued: seq<BilledLine>)
    ensures issued == BilledFrom(lines, order, 0, invoice)
    ensures marked == MarkBilled(lines, order)
  {
    marked, issued := [], [];
    for i := 0 to |lines|
      invariant marked == MarkBilled(lines, order)[..i]
      invariant issued + BilledFrom(lines, order, i, invoice) == BilledFrom(lines, order, 0, invoice)
    {
      var line := lines[i];
      if line.line.order == order && line.invoiced < line.quantity {
        var quantity := line.quantity - line.invoiced;
        issued := issued + [BilledLine(invoice, i, quantity)];
        line := line.(invoiced := line.invoiced + quantity);
      }
      marked := marked + [line];
    }
  }

  class FulfillmentService {
    var warehouses: seq<Warehouse>
    var stock: StockTable
    var orders: map<OrderId, Order>
    var allocations: seq<Allocation>
    var shipments: seq<Shipment>
    var shipmentLines: seq<ShipmentLine>
    var billed: seq<BilledLine>
    var nextAllocation: nat
    var nextInvoice: nat

    function Snapshot(): Books
      reads this
    {
      Books(warehouses, stock, orders, allocations, shipments, shipmentLines, billed, nextAllocation, nextInvoice)
    }

    constructor (warehouses: seq<Warehouse>)
      ensures Snapshot() == Opening(warehouses) && Valid(Snapshot())
    {
      this.warehouses := warehouses;
      stock, orders, allocations, shipments, shipmentLines, billed := map[], map[], [], [], [], [];
      nextAllocation, nextInvoice := 0, 0;
      new;
      RunKeepsValid(warehouses, []);
    }

    // ------------------------------------------------------------- planning

    /** plan_split: skips what has no stock behind it, splits every other line, and books
        what nothing can cover as a backorder. */
    method Plan(order: OrderId) returns (refusal: Option<Refusal>)
      modifies this
      ensures var outcome := PlanSplit(old(Snapshot()), order);
              && Snapshot() == After(outcome, old(Snapshot()))
              && refusal == (if outcome.Refused? then Some(outcome.reason) else None)
    {
      if order !in orders { return Some(UnknownOrder); }
      if HasHistory(Snapshot(), order) { return Some(ShippedHistory); }
      var planned, backordered := PlanLines(Snapshot(), order, orders[order].lines);
      if planned.None? { return Some(NoActiveWarehouse); }
      allocations := Without(allocations, order) + planned.value;
      nextAllocation := nextAllocation + |planned.value|;
      orders := orders[order := orders[order].(status := if backordered then Backorder else SplitPending)];
      refusal := None;
    }

    /** The fulfillment half of confirming a quotation. */
    method Open(order: OrderId, lines: seq<OrderLine>) returns (refusal: Option<Refusal>)
      modifies this
      ensures var outcome := OpenOrder(old(Snapshot()), order, lines);
              && Snapshot() == After(outcome, old(Snapshot()))
              && refusal == (if outcome.Refused? then Some(outcome.reason) else None)
    {
      if order in orders { return Some(OrderExists); }
      if exists i :: 0 <= i < |lines| && lines[i].quantity <= 0 { return Some(ConstraintViolated); }
      var untouched := orders;
      orders := orders[order := Order(lines, false, SplitPending)];
      refusal := Plan(order);
      if refusal.Some? { orders := untouched; }
    }

    // ----------------------------------------------------------- acceptance

    /** accept_split: holds what is still there, backorders what someone else took, and
        opens one planned shipment per warehouse. */
    method Accept(order: OrderId) returns (refusal: Option<Refusal>)
      modifies this
      ensures var outcome := AcceptSplit(old(Snapshot()), order);
              && Snapshot() == After(outcome, old(Snapshot()))
              && refusal == (if outcome.Refused? then Some(outcome.reason) else None)
    {
      if order !in orders { return Some(UnknownOrder); }
      if orders[order].accepted { return Some(AlreadyAccepted); }
      var moved;
      allocations, stock, moved := HoldPlanned(allocations, stock, order);
      var byWarehouse := WarehousesTouched(moved);
      var planned := OpenShipments(order, byWarehouse);
      shipments := shipments + planned;
      orders := orders[order := orders[order].(accepted := true, status := RollUp(StatusesOf(allocations, order)))];
      refusal := None;
    }

    // ------------------------------------------------------------- dispatch

    /** ship: everything reserved for the shipment's order at its warehouse goes out. */
    method Dispatch(shipment: nat) returns (refusal: Option<Refusal>)
      modifies this
      ensures var outcome := Ship(old(Snapshot()), shipment);
              && Snapshot() == After(outcome, old(Snapshot()))
              && refusal == (if outcome.Refused? then Some(outcome.reason) else None)
    {
      if shipment >= |shipments| { return Some(UnknownShipment); }
      var s := shipments[shipment];
      if s.status != ShipmentPlanned && s.status != ShipmentPicking { return Some(AlreadyShipped); }
      if s.order !in orders { return Some(UnknownOrder); }
      var updated, left, lines := DispatchReserved(allocations, stock, shipment, s.order, s.warehouse);
      if lines == [] { return Some(NothingReserved); }
      if exists key :: key in left && !(0 <= left[key].reserved <= left[key].onHand) {
        return Some(ConstraintViolated);
      }
      allocations, stock, shipmentLines := updated, left, shipmentLines + lines;
      shipments := shipments[shipment := s.(status := ShipmentOut)];
      orders := orders[s.order := orders[s.order].(status := RollUp(StatusesOf(allocations, s.order)))];
      refusal := None;
    }

    // ------------------------------------------------------------ the sweep

    /** consolidate_backorders. */
    method Consolidate() returns (merged: nat)
      modifies this
      ensures Snapshot() == ConsolidateBackorders(old(Snapshot()))
      ensures merged == |Walk(Sweeping, old(allocations), old(stock)).moved|
    {
      var moved;
      allocations, stock, moved := ReserveBackorders(allocations, stock);
      shipments := FoldShipments(shipments, moved);
      orders := RollUpEach(orders, allocations, OrdersOf(moved));
      merged := |moved|;
    }

    // ----------------------------------------------------------- restocking

    /** _upsert_stock: never drops on-hand below what is reserved. */
    method UpsertStock(key: ShelfKey, quantity: int) returns (refusal: Option<Refusal>)
      modifies `stock
      ensures var outcome := Restock(old(Snapshot()), key, quantity);
              && Snapshot() == After(outcome, old(Snapshot()))
              && refusal == (if outcome.Refused? then Some(outcome.reason) else None)
    {
      if !(exists i :: 0 <= i < |warehouses| && warehouses[i].id == key.warehouse) { return Some(MissingReference); }
      if key !in stock {
        if quantity < 0 { return Some(ConstraintViolated); }
        stock := stock[key := Stock(quantity, 0)];
      } else {
        var item := stock[key];
        stock := stock[key := item.(onHand := if quantity < item.reserved then item.reserved else quantity)];
      }
      refusal := None;
    }

    // -------------------------------------------------------------- billing

    /** invoice_shipped: no number when nothing new has left. */
    method Invoice(order: OrderId) returns (number: Option<nat>)
      modifies this
      ensures Snapshot() == InvoiceShipped(old(Snapshot()), order)
      ensures number == if Snapshot() == old(Snapshot()) then None else Some(old(nextInvoice))
    {
      var marked, issued := BillLines(shipmentLines, order, nextInvoice);
      if issued == [] { return None; }
      number := Some(nextInvoice);
      shipmentLines, billed := marked, billed + issued;
      nextInvoice := nextInvoice + 1;
    }

    // ------------------------------------------------------------- override

    /** manual_override: a human split, validated line by line and shelf by shelf. */
    method Override(order: OrderId, rows: seq<OverrideRow>) returns (refusal: Option<Refusal>)
      modifies this
      ensures var outcome := ManualOverride(old(Snapshot()), order, rows);
              && Snapshot() == After(outcome, old(Snapshot()))
              && refusal == (if outcome.Refused? then Some(outcome.reason) else None)
    {
      if order !in orders { return Some(UnknownOrder); }
      if orders[order].accepted { return Some(AlreadyAccepted); }
      var lines := orders[order].lines;
      refusal := CheckRows(lines, rows);
      if refusal.Some? { return; }
      refusal := CheckShelves(lines, rows, stock);
      if refusal.Some? { return; }
      if HasHistory(Snapshot(), order) { return Some(ShippedHistory); }
      if !RowReferencesHold(Snapshot(), lines, rows) { return Some(MissingReference); }
      RowsAreOverridable(lines, rows);
      var replacements := WriteRows(order, lines, rows, nextAllocation);
      allocations := Without(allocations, order) + replacements;
      nextAllocation := nextAllocation + |replacements|;
      orders := orders[order := orders[order].(status := RollUp(StatusesOf(replacements, order)))];
      refusal := None;
    }

    /** create_warehouse and update_warehouse. */
    method Configure(w: Warehouse)
      modifies `warehouses
      ensures Snapshot() == SaveWarehouse(old(Snapshot()), w)
    {
      warehouses := WithWarehouse(warehouses, w);
    }

    // ---------------------------------------------------------------- calls

    /** One committed or refused call, keeping the invariant. */
    method Perform(call: Call)
      requires Valid(Snapshot())
      modifies this
      ensures Snapshot() == After(Attempt(old(Snapshot()), call), old(Snapshot()))
      ensures Valid(Snapshot())
    {
      CallKeepsValid(Snapshot(), call);
      match call
      case DoOpen(order, lines) => var _ := Open(order, lines);
      case DoPlan(order) => var _ := Plan(order);
      case DoAccept(order) => var _ := Accept(order);
      case DoOverride(order, rows) => var _ := Override(order, rows);
      case DoShip(shipment) => var _ := Dispatch(shipment);
      case DoSweep => var _ := Consolidate();
      case DoRestock(key, quantity) => var _ := UpsertStock(key, quantity);
      case DoInvoice(order) => var _ := Invoice(order);
      case DoWarehouse(w) => Configure(w);
    }
  }

  method WriteRows(order: OrderId, lines: seq<OrderLine>, rows: seq<OverrideRow>, next: nat)
    returns (written: seq<Allocation>)
    requires forall i :: 0 <= i < |rows| ==> rows[i].position < |lines| && lines[rows[i].position].variant.Some?
    ensures written == OverrideRowsFrom(order, lines, rows, next)
  {
    written := [];
    for i := 0 to |rows|
      invariant written == OverrideRowsFrom(order, lines, rows[..i], next)
    {
      var r := rows[i];
      written := written + [Allocation(next + i, LineId(order, r.position), r.warehouse,
        lines[r.position].variant.value, r.quantity, 0, if r.backordered then Backordered else Planned)];
    }
    assert rows[..|rows|] == rows;
  }

  lemma {:induction false} PlannedRowsStatus(
      id: LineId, variant: VariantId, shelves: seq<ShelfRow>, takes: seq<int>, next: nat)
    requires |shelves| == |takes|
    ensures forall i :: 0 <= i < |PlannedRows(id, variant, shelves, takes, next)| ==>
              PlannedRows(id, variant, shelves, takes, next)[i].status == Planned
  {
    if shelves != [] {
      if takes[0] <= 0 {
        PlannedRowsStatus(id, variant, shelves[1..], takes[1..], next);
      } else {
        PlannedRowsStatus(id, variant, shelves[1..], takes[1..], next + 1);
      }
    }
  }

  function Tally(wanted: map<nat, int>, position: nat): int {
    if position in wanted then wanted[position] else 0
  }

  /** Every row names a line of the order and a positive quantity, and the rows of each
      line total what was sold. */
  method CheckRows(lines: seq<OrderLine>, rows: seq<OverrideRow>) returns (problem: Option<Refusal>)
    ensures problem == (if RowProblem(lines, rows).Some? then RowProblem(lines, rows)
                        else if !AllSupplied(lines, rows) then Some(LineNotCovered) else None)
  {
    var wanted: map<nat, int> := map[];
    for i := 0 to |rows|
      invariant RowProblem(lines, rows) == RowProblem(lines, rows[i..])
      invariant forall p: nat :: Supplied(rows, p) == Tally(wanted, p) + Supplied(rows[i..], p)
    {
      var r := rows[i];
      assert rows[i..][1..] == rows[i + 1..];
      if !Overridable(lines, r.position) { return Some(UnknownLine); }
      if r.quantity <= 0 { return Some(BadQuantity); }
      wanted := wanted[r.position := Tally(wanted, r.position) + r.quantity];
    }
    for p := 0 to |lines|
      invariant forall q :: 0 <= q < p && !lines[q].recurring ==> Supplied(rows, q) == lines[q].quantity
    {
      if !lines[p].recurring && Tally(wanted, p) != lines[p].quantity {
        assert Supplied(rows, p) != lines[p].quantity;
        return Some(LineNotCovered);
      }
    }
    problem := None;
  }

  function DrawnSoFar(drawn: map<(WarehouseId, Option<VariantId>), int>, key: (WarehouseId, Option<VariantId>)): int {
    if key in drawn then drawn[key] else 0
  }

  /** No shelf is drawn below what it holds, summed across rows. */
  method CheckShelves(lines: seq<OrderLine>, rows: seq<OverrideRow>, stock: StockTable)
    returns (problem: Option<Refusal>)
    requires RowProblem(lines, rows).None?
    ensures problem == if WithinShelves(lines, rows, stock) then None else Some(ShelfOverdrawn)
  {
    RowsAreOverridable(lines, rows);
    var drawn: map<(WarehouseId, Option<VariantId>), int> := map[];
    for i := 0 to |rows|
      invariant forall w: nat, v ::
          Drawn(lines, rows, w, v) == DrawnSoFar(drawn, (w, v)) + Drawn(lines, rows[i..], w, v)
      invariant forall k :: 0 <= k < i && !rows[k].backordered ==>
          (rows[k].warehouse, lines[rows[k].position].variant) in drawn
      invariant forall key :: key in drawn ==>
        exists k :: 0 <= k < i && !rows[k].backordered && (rows[k].warehouse, lines[rows[k].position].variant) == key
    {
      var r := rows[i];
      assert rows[i..][1..] == rows[i + 1..];
      if !r.backordered {
        var key := (r.warehouse, lines[r.position].variant);
        drawn := drawn[key := DrawnSoFar(drawn, key) + r.quantity];
      }
    }
    var keys := drawn.Keys;
    while keys != {}
      invariant keys <= drawn.Keys
      invariant forall key :: key in drawn && key !in keys ==> drawn[key] <= FreeFor(stock, key.0, key.1)
      decreases |keys|
    {
      var key :| key in keys;
      if drawn[key] > FreeFor(stock, key.0, key.1) {
        var k :| 0 <= k < |rows| && !rows[k].backordered && (rows[k].warehouse, lines[rows[k].position].variant) == key;
        assert Drawn(lines, rows, key.0, key.1) > FreeFor(stock, key.0, key.1);
        return Some(ShelfOverdrawn);
      }
      keys := keys - {key};
    }
    problem := None;
  }
}
