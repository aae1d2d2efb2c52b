/** What each call on the fulfillment tables writes, said in the rows and figures it was
    given. */
module LedgerEffects {
  import opened Outcomes
  import opened Numbers
  import opened SplitPlanner
  import opened Ledger
  import opened LedgerWalk
  import opened LedgerPlan
  import opened LedgerInvariant
  import opened LedgerTheorems
  import opened SplitTheorems

  // ------------------------------------------------------------- statuses

  predicate OfOrder(a: Allocation, order: OrderId) { a.line.order == order }

  predicate AnyIs(rows: seq<Allocation>, order: OrderId, status: AllocationStatus) {
    exists i :: 0 <= i < |rows| && OfOrder(rows[i], order) && rows[i].status == status
  }

  predicate AllAre(rows: seq<Allocation>, order: OrderId, status: AllocationStatus) {
    forall i :: 0 <= i < |rows| && OfOrder(rows[i], order) ==> rows[i].status == status
  }

  /** The stored status against the order's rows. */
  predicate StatusSays(status: FulfillmentStatus, rows: seq<Allocation>, order: OrderId) {
    && (status == Fulfilled <==> AllAre(rows, order, Shipped))
    && (status == PartlyShipped <==> AnyIs(rows, order, Shipped) && !AllAre(rows, order, Shipped))
    && (status == Backorder <==> AnyIs(rows, order, Backordered) && !AnyIs(rows, order, Shipped))
    && (status == FullyReserved <==>
          AnyIs(rows, order, Reserved) && !AnyIs(rows, order, Shipped) && !AnyIs(rows, order, Backordered))
    && (status == SplitPending <==> AllAre(rows, order, Planned) && !AllAre(rows, order, Shipped))
  }

  lemma StatusesAre(rows: seq<Allocation>, order: OrderId, status: AllocationStatus)
    ensures status in StatusesOf(rows, order) <==> AnyIs(rows, order, status)
  {
    if AnyIs(rows, order, status) {
      var i :| 0 <= i < |rows| && OfOrder(rows[i], order) && rows[i].status == status;
      assert rows[i] in rows;
    }
    if status in StatusesOf(rows, order) {
      var a :| a in rows && a.line.order == order && a.status == status;
      var i :| 0 <= i < |rows| && rows[i] == a;
      assert OfOrder(rows[i], order);
    }
  }

  lemma RollUpSays(rows: seq<Allocation>, order: OrderId)
    requires AllSound(rows)
    ensures StatusSays(RollUp(StatusesOf(rows, order)), rows, order)
  {
    var statuses := StatusesOf(rows, order);
    forall status ensures status in statuses <==> AnyIs(rows, order, status) { StatusesAre(rows, order, status); }
    forall i | 0 <= i < |rows| && OfOrder(rows[i], order) ensures rows[i].status in statuses {
      assert AnyIs(rows, order, rows[i].status) && Sound(rows[i]);
    }
    assert AllAre(rows, order, Shipped) <==> statuses == {} || statuses == {Shipped};
    assert statuses <= {Planned, Reserved, Backordered, Shipped};
  }

  /** After any run the status of an order with something to ship is what its rows say. */
  lemma StatusAfterRuns(warehouses: seq<Warehouse>, calls: seq<Call>, order: OrderId, k: nat)
    requires var b := Run(Opening(warehouses), calls);
             order in b.orders && k < |b.allocations| && OfOrder(b.allocations[k], order)
    ensures var b := Run(Opening(warehouses), calls); StatusSays(b.orders[order].status, b.allocations, order)
  {
    LedgerCalls.RunKeepsValid(warehouses, calls);
    var b := Run(Opening(warehouses), calls);
    RollUpSays(b.allocations, order);
    StatusesAre(b.allocations, order, b.allocations[k].status);
    assert AnyIs(b.allocations, order, b.allocations[k].status);
  }

  // ----------------------------------------------------- the manual override

  /** The row as it was typed. */
  predicate RowWritten(a: Allocation, order: OrderId, lines: seq<OrderLine>, row: OverrideRow) {
    && a.line == LineId(order, row.position) && a.warehouse == row.warehouse && a.quantity == row.quantity
    && row.position < |lines| && lines[row.position].variant == Some(a.variant)
    && a.shipped == 0 && a.status == (if row.backordered then Backordered else Planned)
  }

  /** What an override leaves of the tables: the rows of the other orders as they were, and
      after them one row for each typed one; the order stays open. */
  ghost predicate OverrideWritten(b: Books, b': Books, order: OrderId, rows: seq<OverrideRow>) {
    && order in b.orders && order in b'.orders
    && |rows| <= |b'.allocations|
    && (var kept := |b'.allocations| - |rows|;
        && (forall a :: a in b'.allocations[..kept] <==> a in b.allocations && !OfOrder(a, order))
        && (forall i :: 0 <= i < |rows| ==>
           RowWritten(b'.allocations[kept + i], order, b.orders[order].lines, rows[i])))
    && b'.orders[order].lines == b.orders[order].lines && !b'.orders[order].accepted
    && b'.orders[order].status == (if exists i :: 0 <= i < |rows| && rows[i].backordered then Backorder
                                   else if rows == [] then Fulfilled else SplitPending)
    && b' == b.(allocations := b'.allocations, nextAllocation := b.nextAllocation + |rows|,
                orders := b.orders[order := b'.orders[order]])
  }

  lemma {:induction false} WithoutIs(rows: seq<Allocation>, order: OrderId, a: Allocation)
    ensures a in Without(rows, order) <==> a in rows && !OfOrder(a, order)
  {
    if rows != [] {
      WithoutIs(rows[1..], order, a);
      assert rows == [rows[0]] + rows[1..];
    }
  }

  lemma OverrideStatus(order: OrderId, lines: seq<OrderLine>, written: seq<Allocation>, rows: seq<OverrideRow>)
    requires |written| == |rows| && forall i :: 0 <= i < |rows| ==> RowWritten(written[i], order, lines, rows[i])
    ensures RollUp(StatusesOf(written, order))
            == (if exists i :: 0 <= i < |rows| && rows[i].backordered then Backorder
                else if rows == [] then Fulfilled else SplitPending)
  {
    var statuses := StatusesOf(written, order);
    forall status ensures status in statuses <==> AnyIs(written, order, status) { StatusesAre(written, order, status); }
    if rows != [] { assert OfOrder(written[0], order) && AnyIs(written, order, written[0].status); }
    if i :| 0 <= i < |rows| && rows[i].backordered
        { assert OfOrder(written[i], order) && AnyIs(written, order, Backordered); }
    forall status | status in statuses ensures status == Planned || status == Backordered {
      var i :| 0 <= i < |written| && OfOrder(written[i], order) && written[i].status == status;
      assert RowWritten(written[i], order, lines, rows[i]);
    }
    if AnyIs(written, order, Backordered) {
      var i :| 0 <= i < |written| && OfOrder(written[i], order) && written[i].status == Backordered;
      assert RowWritten(written[i], order, lines, rows[i]);
    }
  }

  /** A committed override writes exactly the typed rows. */
  lemma OverrideWrites(b: Books, order: OrderId, rows: seq<OverrideRow>)
    requires ManualOverride(b, order, rows).Committed?
    ensures OverrideWritten(b, ManualOverride(b, order, rows).value, order, rows)
  {
    var lines, b' := b.orders[order].lines, ManualOverride(b, order, rows).value;
    OverrideReplaces(b, order, rows);
    var written := OverrideRowsFrom(order, lines, rows, b.nextAllocation);
    var kept := Without(b.allocations, order);
    assert b'.allocations[..|kept|] == kept && b'.allocations[|kept|..] == written;
    forall a ensures a in kept <==> a in b.allocations && !OfOrder(a, order) { WithoutIs(b.allocations, order, a); }
    forall i | 0 <= i < |rows| ensures RowWritten(written[i], order, lines, rows[i]) { }
    OverrideStatus(order, lines, written, rows);
  }

  // ------------------------------------------------- when an override commits

  /** Units the typed rows give to one line. */
  function AskedOf(rows: seq<OverrideRow>, position: nat): int {
    if rows == [] then 0
    else AskedOf(rows[..|rows| - 1], position)
         + if rows[|rows| - 1].position == position then rows[|rows| - 1].quantity else 0
  }

  predicate DrawsOn(row: OverrideRow, lines: seq<OrderLine>, key: ShelfKey) {
    && !row.backordered && row.warehouse == key.warehouse
    && row.position < |lines| && lines[row.position].variant == Some(key.variant)
  }

  /** Units the typed rows draw from one shelf. */
  function DrawnFrom(rows: seq<OverrideRow>, lines: seq<OrderLine>, key: ShelfKey): int {
    if rows == [] then 0
    else DrawnFrom(rows[..|rows| - 1], lines, key)
         + if DrawsOn(rows[|rows| - 1], lines, key) then rows[|rows| - 1].quantity else 0
  }

  predicate Known(warehouses: seq<Warehouse>, id: WarehouseId) {
    exists w :: 0 <= w < |warehouses| && warehouses[w].id == id
  }

  predicate RowAcceptable(b: Books, lines: seq<OrderLine>, row: OverrideRow) {
    && row.position < |lines| && !lines[row.position].recurring && lines[row.position].variant.Some?
    && row.quantity > 0 && Known(b.warehouses, row.warehouse)
  }

  predicate Pointed(b: Books, order: OrderId) {
    exists j, i :: 0 <= j < |b.shipmentLines| && 0 <= i < |b.allocations|
                   && b.shipmentLines[j].allocation == b.allocations[i].id && OfOrder(b.allocations[i], order)
  }

  lemma {:induction false} AskedIsSupplied(rows: seq<OverrideRow>, position: nat)
    ensures AskedOf(rows, position) == Supplied(rows, position)
  {
    if rows != [] {
      var front, last := rows[..|rows| - 1], rows[|rows| - 1];
      AskedIsSupplied(front, position);
      SuppliedSnoc(front, last, position);
      assert front + [last] == rows;
    }
  }

  lemma {:induction false} SuppliedSnoc(rows: seq<OverrideRow>, row: OverrideRow, position: nat)
    ensures Supplied(rows + [row], position) == Supplied(rows, position) + if row.position
            == position then row.quantity else 0
  {
    if rows == [] {
      assert rows + [row] == [row];
    } else {
      assert (rows + [row])[1..] == rows[1..] + [row];
      SuppliedSnoc(rows[1..], row, position);
    }
  }

  lemma {:induction false} DrawnIsDrawn(rows: seq<OverrideRow>, lines: seq<OrderLine>, key: ShelfKey)
    ensures DrawnFrom(rows, lines, key) == Drawn(lines, rows, key.warehouse, Some(key.variant))
  {
    if rows != [] {
      var front, last := rows[..|rows| - 1], rows[|rows| - 1];
      DrawnIsDrawn(front, lines, key);
      DrawnSnoc(front, lines, last, key);
      assert front + [last] == rows;
    }
  }

  lemma {:induction false} DrawnSnoc(rows: seq<OverrideRow>, lines: seq<OrderLine>, row: OverrideRow, key: ShelfKey)
    ensures Drawn(lines, rows + [row], key.warehouse, Some(key.variant))
         == Drawn(lines, rows, key.warehouse, Some(key.variant)) + if DrawsOn(row, lines, key) then row.quantity else 0
  {
    if rows == [] {
      assert rows + [row] == [row];
    } else {
      assert (rows + [row])[1..] == rows[1..] + [row];
      DrawnSnoc(rows[1..], lines, row, key);
    }
  }

  lemma {:induction false} NothingDrawn(rows: seq<OverrideRow>, lines: seq<OrderLine>, key: ShelfKey)
    requires forall i :: 0 <= i < |rows| ==> !DrawsOn(rows[i], lines, key)
    ensures DrawnFrom(rows, lines, key) == 0
  {
    if rows != [] { NothingDrawn(rows[..|rows| - 1], lines, key); }
  }

  ghost predicate NoneOverdrawn(b: Books, lines: seq<OrderLine>, rows: seq<OverrideRow>) {
    forall key :: DrawnFrom(rows, lines, key) <= AvailableAt(b.stock, key)
  }

  lemma WithinIsNoneOverdrawn(b: Books, lines: seq<OrderLine>, rows: seq<OverrideRow>)
    requires StockChecks(b.stock) && forall i :: 0 <= i < |rows| ==> RowAcceptable(b, lines, rows[i])
    ensures WithinShelves(lines, rows, b.stock) <==> NoneOverdrawn(b, lines, rows)
  {
    if WithinShelves(lines, rows, b.stock) {
      forall key ensures DrawnFrom(rows, lines, key) <= AvailableAt(b.stock, key) {
        if i :| 0 <= i < |rows| && DrawsOn(rows[i], lines, key) {
          DrawnIsDrawn(rows, lines, key);
        } else {
          NothingDrawn(rows, lines, key);
        }
      }
    }
    if NoneOverdrawn(b, lines, rows) {
      forall i | 0 <= i < |rows| && !rows[i].backordered && rows[i].position < |lines|
        ensures Drawn(lines, rows, rows[i].warehouse, lines[rows[i].position].variant)
                <= FreeFor(b.stock, rows[i].warehouse, lines[rows[i].position].variant)
      {
        assert RowAcceptable(b, lines, rows[i]);
        var key := ShelfKey(rows[i].warehouse, lines[rows[i].position].variant.value);
        DrawnIsDrawn(rows, lines, key);
        assert DrawnFrom(rows, lines, key) <= AvailableAt(b.stock, key);
      }
    }
  }

  lemma {:induction false} NoProblemIff(lines: seq<OrderLine>, rows: seq<OverrideRow>)
    ensures RowProblem(lines, rows).None?
            <==> forall i :: 0 <= i < |rows| ==>
                   rows[i].position < |lines| && !lines[rows[i].position].recurring && rows[i].quantity > 0
  {
    if rows != [] {
      NoProblemIff(lines, rows[1..]);
      assert rows == [rows[0]] + rows[1..];
    }
  }

  /** An override goes through if and only if the order exists and was not accepted, nothing
      of it has shipped, every typed row names a physical line, a known warehouse and a
      positive quantity, every line gets what was ordered, and no shelf is drawn below what
      it has available. */
  lemma OverrideCommitsIff(b: Books, order: OrderId, rows: seq<OverrideRow>)
    requires StockChecks(b.stock)
    ensures ManualOverride(b, order, rows).Committed?
            <==> && order in b.orders && !b.orders[order].accepted && !Pointed(b, order)
                 && (forall i :: 0 <= i < |rows| ==> RowAcceptable(b, b.orders[order].lines, rows[i]))
                 && (forall p :: 0 <= p < |b.orders[order].lines| && !b.orders[order].lines[p].recurring ==>
                       AskedOf(rows, p) == b.orders[order].lines[p].quantity)
                 && NoneOverdrawn(b, b.orders[order].lines, rows)
  {
    if order in b.orders {
      var lines := b.orders[order].lines;
      NoProblemIff(lines, rows);
      forall p: nat ensures AskedOf(rows, p) == Supplied(rows, p) { AskedIsSupplied(rows, p); }
      assert HasHistory(b, order) <==> Pointed(b, order);
      if forall i :: 0 <= i < |rows| ==> RowAcceptable(b, lines, rows[i]) { WithinIsNoneOverdrawn(b, lines, rows); }
      if ManualOverride(b, order, rows).Committed? {
        forall i | 0 <= i < |rows| ensures RowAcceptable(b, lines, rows[i]) { }
      }
    }
  }

  // ------------------------------------------------ overriding, then accepting

  lemma {:induction false} PlannedAtConcat(xs: seq<Allocation>, ys: seq<Allocation>, order: OrderId, key: ShelfKey)
    ensures PlannedAt(xs + ys, order, key) == PlannedAt(xs, order, key) + PlannedAt(ys, order, key)
  {
    if xs == [] {
      assert xs + ys == ys;
    } else {
      assert (xs + ys)[1..] == xs[1..] + ys;
      PlannedAtConcat(xs[1..], ys, order, key);
    }
  }

  lemma {:induction false} NothingPlanned(rows: seq<Allocation>, order: OrderId, key: ShelfKey)
    requires forall i :: 0 <= i < |rows| ==> !OfOrder(rows[i], order)
    ensures PlannedAt(rows, order, key) == 0
  {
    if rows != [] { NothingPlanned(rows[1..], order, key); }
  }

  lemma {:induction false} PlannedIsDrawn(
      written: seq<Allocation>, order: OrderId, lines: seq<OrderLine>, rows: seq<OverrideRow>, key: ShelfKey)
    requires |written| == |rows| && forall i :: 0 <= i < |rows| ==> RowWritten(written[i], order, lines, rows[i])
    ensures PlannedAt(written, order, key) == DrawnFrom(rows, lines, key)
  {
    if rows != [] {
      var n := |rows| - 1;
      PlannedIsDrawn(written[..n], order, lines, rows[..n], key);
      PlannedAtConcat(written[..n], [written[n]], order, key);
      assert written == written[..n] + [written[n]] && RowWritten(written[n], order, lines, rows[n]);
    }
  }

  lemma PlannedTail(
      all: seq<Allocation>, kept: nat, order: OrderId, lines: seq<OrderLine>, rows: seq<OverrideRow>, key: ShelfKey)
    requires |all| == kept + |rows|
    requires forall a :: a in all[..kept] ==> !OfOrder(a, order)
    requires forall i :: 0 <= i < |rows| ==> RowWritten(all[kept + i], order, lines, rows[i])
    ensures PlannedAt(all, order, key) == DrawnFrom(rows, lines, key)
  {
    var before, written := all[..kept], all[kept..];
    assert all == before + written;
    PlannedAtConcat(before, written, order, key);
    forall i | 0 <= i < |before| ensures !OfOrder(before[i], order) { assert before[i] in before; }
    NothingPlanned(before, order, key);
    PlannedIsDrawn(written, order, lines, rows, key);
  }

  lemma OverrideFits(b: Books, order: OrderId, rows: seq<OverrideRow>)
    requires StockChecks(b.stock) && ManualOverride(b, order, rows).Committed?
    ensures var b' := ManualOverride(b, order, rows).value; Fits(b'.allocations, b'.stock, order)
  {
    var b', lines := ManualOverride(b, order, rows).value, b.orders[order].lines;
    OverrideWrites(b, order, rows);
    OverrideCommitsIff(b, order, rows);
    forall key ensures PlannedAt(b'.allocations, order, key) <= AvailableAt(b'.stock, key) {
      PlannedTail(b'.allocations, |b'.allocations| - |rows|, order, lines, rows, key);
      assert DrawnFrom(rows, lines, key) <= AvailableAt(b.stock, key);
    }
  }

  /** The planned rows of a committed override ask no shelf for more than it has available,
      so accepting it at once reserves every one of them. */
  lemma OverrideIsReservable(b: Books, order: OrderId, rows: seq<OverrideRow>)
    requires Valid(b) && ManualOverride(b, order, rows).Committed?
    ensures var b' := ManualOverride(b, order, rows).value;
            && (forall key :: PlannedAt(b'.allocations, order, key) <= AvailableAt(b'.stock, key))
            && AcceptSplit(b', order).Committed?
            && AllReserved(b'.allocations, AcceptSplit(b', order).value.allocations, order)
  {
    OverrideFits(b, order, rows);
    OverrideKeepsValid(b, order, rows);
    OverrideLeavesOpen(b, order, rows);
    AcceptReservesAllIff(ManualOverride(b, order, rows).value, order);
  }

  lemma OverrideLeavesOpen(b: Books, order: OrderId, rows: seq<OverrideRow>)
    requires ManualOverride(b, order, rows).Committed?
    ensures AcceptSplit(ManualOverride(b, order, rows).value, order).Committed?
  {
    OverrideWrites(b, order, rows);
  }

  // ---------------------------------------------------------- acceptance

  predicate Unaccepted(b: Books, order: OrderId) { order in b.orders && !b.orders[order].accepted }

  /** Acceptance happens once.  It moves the planned rows of its order to reserved or
      backordered and nothing else, opens one planned shipment for each warehouse it
      reserves at, and leaves on-hand alone. */
  lemma AcceptWrites(b: Books, order: OrderId)
    requires Valid(b)
    ensures AcceptSplit(b, order).Committed? <==> Unaccepted(b, order)
    ensures Unaccepted(b, order) ==>
              var b' := AcceptSplit(b, order).value;
              && |b'.allocations| == |b.allocations|
              && (forall i :: 0 <= i < |b.allocations| ==> RowAccepted(b.allocations[i], b'.allocations[i], order))
              && b.shipments <= b'.shipments
              && ShipmentsOpened(b'.shipments[|b.shipments|..], b.allocations, b'.allocations, order)
              && b'.stock.Keys == b.stock.Keys
                 && (forall key :: key in b.stock ==> b'.stock[key].onHand == b.stock[key].onHand)
              && order in b'.orders && b'.orders[order].accepted && b'.orders[order].lines == b.orders[order].lines
              && b' == b.(allocations := b'.allocations, stock := b'.stock, shipments := b'.shipments,
                          orders := b.orders[order := b'.orders[order]])
  {
    if Unaccepted(b, order) {
      var b' := AcceptSplit(b, order).value;
      WalkRows(Accepting(order), b.allocations, b.stock);
      WalkBalances(Accepting(order), b.allocations, b.stock);
      OpenedAre(order, b.allocations, b.stock);
      assert b'.shipments[|b.shipments|..]
          == PlannedShipments(order, WarehousesOf(Walk(Accepting(order), b.allocations, b.stock).moved));
    }
  }

  /** An accepted order can neither be accepted again nor overridden. */
  lemma AcceptedStays(b: Books, order: OrderId, rows: seq<OverrideRow>)
    requires AcceptSplit(b, order).Committed?
    ensures var b' := AcceptSplit(b, order).value;
            AcceptSplit(b', order) == Refused(AlreadyAccepted)
                && ManualOverride(b', order, rows) == Refused(AlreadyAccepted)
  {
  }

  predicate RowAccepted(before: Allocation, after: Allocation, order: OrderId) {
    if OfOrder(before, order) && before.status == Planned
    then after == before.(status := Reserved) || after == before.(status := Backordered)
    else after == before
  }

  predicate NewlyReserved(
      before: Allocation, after: Allocation) { before.status != Reserved && after.status == Reserved }

  predicate Serves(shipments: seq<Shipment>, w: WarehouseId) {
    exists i :: 0 <= i < |shipments| && shipments[i].warehouse == w
  }

  predicate ReservesAt(before: seq<Allocation>, after: seq<Allocation>, w: WarehouseId)
    requires |before| == |after|
  {
    exists k :: 0 <= k < |before| && before[k].warehouse == w && NewlyReserved(before[k], after[k])
  }

  /** One planned shipment of the order for each warehouse of a newly reserved row. */
  ghost predicate ShipmentsOpened(added: seq<Shipment>, before: seq<Allocation>, after: seq<Allocation>, order: OrderId)
    requires |before| == |after|
  {
    && (forall i :: 0 <= i < |added| ==> added[i].order == order && added[i].status == ShipmentPlanned)
    && (forall i, j :: 0 <= i < j < |added| ==> added[i].warehouse != added[j].warehouse)
    && (forall w :: Serves(added, w) <==> ReservesAt(before, after, w))
  }

  lemma OpenedAre(order: OrderId, rows: seq<Allocation>, stock: StockTable)
    ensures var p := Walk(Accepting(order), rows, stock);
            |p.allocations| == |rows| &&
            ShipmentsOpened(PlannedShipments(order, WarehousesOf(p.moved)), rows, p.allocations, order)
  {
    var p := Walk(Accepting(order), rows, stock);
    var warehouses := WarehousesOf(p.moved);
    var added := PlannedShipments(order, warehouses);
    WarehousesDistinct(p.moved);
    MovedIsNewlyReserved(order, rows, stock);
    forall w ensures Serves(added, w) <==> w in warehouses {
      if w in warehouses {
        var i :| 0 <= i < |warehouses| && warehouses[i] == w;
        assert added[i].warehouse == w;
      }
    }
    forall w ensures w in warehouses <==> ReservesAt(rows, p.allocations, w) {
      if w in warehouses {
        var a :| a in p.moved && a.warehouse == w;
        var k :| 0 <= k < |rows| && rows[k] == a && NewlyReserved(rows[k], p.allocations[k]);
        assert rows[k].warehouse == w;
      }
    }
  }

  /** The rows a pass of acceptance moved are those that are newly reserved. */
  lemma {:induction false} MovedIsNewlyReserved(order: OrderId, rows: seq<Allocation>, stock: StockTable)
    ensures var p := Walk(Accepting(order), rows, stock);
            && |p.allocations| == |rows|
            && (forall a :: a in p.moved ==>
                  exists k :: 0 <= k < |rows| && rows[k] == a && NewlyReserved(rows[k], p.allocations[k]))
            && (forall k :: 0 <= k < |rows| && NewlyReserved(rows[k], p.allocations[k]) ==> rows[k] in p.moved)
  {
    if rows != [] {
      var move := Accepting(order);
      var stock' := MovedStock(move, rows[0], stock);
      var p, rest := Walk(move, rows, stock), Walk(move, rows[1..], stock');
      MovedIsNewlyReserved(order, rows[1..], stock');
      assert p.allocations[1..] == rest.allocations;
      forall a | a in p.moved
        ensures exists k :: 0 <= k < |rows| && rows[k] == a && NewlyReserved(rows[k], p.allocations[k])
      {
        if a in rest.moved {
          var k :| 0 <= k < |rows[1..]| && rows[1..][k] == a && NewlyReserved(rows[1..][k], rest.allocations[k]);
          assert rows[k + 1] == a && NewlyReserved(rows[k + 1], p.allocations[k + 1]);
        } else {
          assert a == rows[0] && NewlyReserved(rows[0], p.allocations[0]);
        }
      }
      forall k | 0 <= k < |rows| && NewlyReserved(rows[k], p.allocations[k]) ensures rows[k] in p.moved {
        if k > 0 { assert rows[k] == rows[1..][k - 1] && p.allocations[k] == rest.allocations[k - 1]; }
      }
    }
  }

  // ------------------------------------------------------------ dispatch

  predicate Leaves(a: Allocation, s: Shipment) {
    OfOrder(a, s.order) && a.warehouse == s.warehouse && a.status == Reserved
  }

  /** One shipment line per row that leaves: its shipment, its row, all its units, nothing
      billed yet. */
  predicate LineShipped(sl: ShipmentLine, shipment: nat, a: Allocation) {
    sl == ShipmentLine(shipment, a.id, a.line, a.quantity, 0)
  }

  /** The rows that leave, in table order. */
  function Leaving(rows: seq<Allocation>, s: Shipment): seq<Allocation> {
    if rows == [] then []
    else (if Leaves(rows[0], s) then [rows[0]] else []) + Leaving(rows[1..], s)
  }

  lemma {:induction false} MovedAreLeaving(rows: seq<Allocation>, stock: StockTable, s: Shipment)
    requires AllSound(rows)
    ensures Walk(Dispatching(s.order, s.warehouse), rows, stock).moved == Leaving(rows, s)
  {
    if rows != [] {
      assert Sound(rows[0]);
      MovedAreLeaving(rows[1..], MovedStock(Dispatching(s.order, s.warehouse), rows[0], stock), s);
    }
  }

  lemma {:induction false} LeavingIs(rows: seq<Allocation>, s: Shipment)
    ensures forall a :: a in Leaving(rows, s) <==> a in rows && Leaves(a, s)
  {
    if rows != [] {
      LeavingIs(rows[1..], s);
      assert rows == [rows[0]] + rows[1..];
    }
  }

  predicate RowShipped(before: Allocation, after: Allocation, s: Shipment) {
    after == if Leaves(before, s) then before.(shipped := before.quantity, status := Shipped) else before
  }

  /** A shipment goes out once, and only when some row is reserved for it. */
  lemma ShipCommitsIff(b: Books, shipment: nat)
    requires Valid(b)
    ensures Ship(b, shipment).Committed?
            <==> shipment < |b.shipments| && b.shipments[shipment].status != ShipmentOut
                 && exists k :: 0 <= k < |b.allocations| && Leaves(b.allocations[k], b.shipments[shipment])
  {
    if shipment < |b.shipments| {
      var s := b.shipments[shipment];
      MovedAreLeaving(b.allocations, b.stock, s);
      LeavingIs(b.allocations, s);
      if k :| 0 <= k < |b.allocations| && Leaves(b.allocations[k], s) {
        assert Placed(b.allocations[k], b.orders) && b.allocations[k] in Leaving(b.allocations, s);
        LedgerCalls.ShipNeverHitsTheChecks(b, shipment);
      }
      if Leaving(b.allocations, s) != [] { SomeoneLeaves(b.allocations, s); }
    }
  }

  lemma SomeoneLeaves(rows: seq<Allocation>, s: Shipment)
    requires Leaving(rows, s) != []
    ensures exists k :: 0 <= k < |rows| && Leaves(rows[k], s)
  {
    LeavingIs(rows, s);
    var a := Leaving(rows, s)[0];
    assert a in Leaving(rows, s) && a in rows;
    var k :| 0 <= k < |rows| && rows[k] == a;
  }

  /** Exactly the rows reserved for it are shipped, each in full on a line of its own. */
  lemma ShipWrites(b: Books, shipment: nat)
    requires Valid(b) && Ship(b, shipment).Committed?
    ensures var s, b' := b.shipments[shipment], Ship(b, shipment).value;
            && |b'.allocations| == |b.allocations|
            && (forall i :: 0 <= i < |b.allocations| ==> RowShipped(b.allocations[i], b'.allocations[i], s))
            && b'.shipments == b.shipments[shipment := Shipment(s.order, s.warehouse, ShipmentOut)]
            && LinesShipped(b.shipmentLines, b'.shipmentLines, shipment, Leaving(b.allocations, s))
            && s.order in b.orders && s.order in b'.orders
            && b'.orders[s.order] == b.orders[s.order].(status := b'.orders[s.order].status)
            && b' == b.(allocations := b'.allocations, stock := b'.stock, shipments := b'.shipments,
                        shipmentLines := b'.shipmentLines, orders := b.orders[s.order := b'.orders[s.order]])
  {
    var s := b.shipments[shipment];
    RowsShip(b.allocations, b.stock, s);
    MovedAreLeaving(b.allocations, b.stock, s);
    LeavingUnshipped(b.allocations, s);
    LinesFor(b.shipmentLines, shipment, Leaving(b.allocations, s));
  }

  predicate LinesShipped(before: seq<ShipmentLine>, after: seq<ShipmentLine>, shipment: nat, leaving: seq<Allocation>) {
    && |after| == |before| + |leaving| && before <= after
    && forall j :: 0 <= j < |leaving| ==> LineShipped(after[|before| + j], shipment, leaving[j])
  }

  lemma LinesFor(before: seq<ShipmentLine>, shipment: nat, leaving: seq<Allocation>)
    requires forall j :: 0 <= j < |leaving| ==> leaving[j].shipped == 0
    ensures LinesShipped(before, before + ShipmentLinesFor(shipment, leaving), shipment, leaving)
  {
  }

  lemma LeavingUnshipped(rows: seq<Allocation>, s: Shipment)
    requires AllSound(rows)
    ensures forall j :: 0 <= j < |Leaving(rows, s)| ==> Leaving(rows, s)[j].shipped == 0
  {
    LeavingIs(rows, s);
    forall j | 0 <= j < |Leaving(rows, s)| ensures Leaving(rows, s)[j].shipped == 0 {
      var a := Leaving(rows, s)[j];
      assert a in Leaving(rows, s) && a in rows;
      var k :| 0 <= k < |rows| && rows[k] == a;
      assert Sound(rows[k]);
    }
  }

  lemma RowsShip(rows: seq<Allocation>, stock: StockTable, s: Shipment)
    requires AllSound(rows)
    ensures var after := Walk(Dispatching(s.order, s.warehouse), rows, stock).allocations;
            |after| == |rows| && forall i :: 0 <= i < |rows| ==> RowShipped(rows[i], after[i], s)
  {
    var move := Dispatching(s.order, s.warehouse);
    WalkRows(move, rows, stock);
    forall i | 0 <= i < |rows| ensures RowShipped(rows[i], Walk(move, rows, stock).allocations[i], s) {
      assert Sound(rows[i]) && Follows(move, rows[i], Walk(move, rows, stock).allocations[i]);
    }
  }

  // ------------------------------------------------ sweep, restock, billing

  /** The sweep turns backordered rows into reserved ones and touches no others. */
  lemma SweepWrites(b: Books)
    requires Valid(b)
    ensures var b' := ConsolidateBackorders(b);
            && |b'.allocations| == |b.allocations|
            && (forall i :: 0 <= i < |b.allocations| ==>
                  b'.allocations[i] == b.allocations[i]
                  || (b.allocations[i].status == Backordered
                      && b'.allocations[i] == b.allocations[i].(status := Reserved)))
            && b'.stock.Keys == b.stock.Keys
               && (forall key :: key in b.stock ==> b'.stock[key].onHand == b.stock[key].onHand)
            && b.shipments <= b'.shipments && b'.orders.Keys == b.orders.Keys
            && (forall o :: o in b.orders ==> b'.orders[o] == b.orders[o].(status := b'.orders[o].status))
            && b' == b.(allocations := b'.allocations, stock := b'.stock, shipments := b'.shipments,
               orders := b'.orders)
  {
    WalkRows(Sweeping, b.allocations, b.stock);
    WalkBalances(Sweeping, b.allocations, b.stock);
    LedgerCalls.ConsolidatedCovers(b.shipments, Walk(Sweeping, b.allocations, b.stock).moved);
    forall i | 0 <= i < |b.allocations|
      ensures Follows(Sweeping, b.allocations[i], Walk(Sweeping, b.allocations, b.stock).allocations[i])
    {
    }
  }

  /** A restock of a known warehouse sets on-hand to the typed figure, or to what is reserved
      when that is more; it keeps the reserved count and every other shelf.  A shelf that is
      new starts with nothing reserved and cannot be negative. */
  lemma RestockWrites(b: Books, key: ShelfKey, quantity: int)
    ensures Restock(b, key, quantity).Committed?
            <==> Known(b.warehouses, key.warehouse) && (key in b.stock || quantity >= 0)
    ensures Restock(b, key, quantity).Committed? ==>
              var b', reserved := Restock(b, key, quantity).value, ReservedAt(b.stock, key);
              && key in b'.stock && b'.stock[key].reserved == reserved
              && b'.stock[key].onHand >= quantity
                 && b'.stock[key].onHand >= (if key in b.stock then reserved else quantity)
              && (b'.stock[key].onHand == quantity || (key in b.stock && b'.stock[key].onHand == reserved))
              && b'.stock.Keys == b.stock.Keys + {key}
              && (forall other :: other in b.stock && other != key ==> b'.stock[other] == b.stock[other])
              && b' == b.(stock := b'.stock)
  {
  }

  /** Saving a warehouse puts it in its own place, or last, and moves no other. */
  lemma {:induction false} WarehouseSaved(warehouses: seq<Warehouse>, w: Warehouse)
    ensures var after := WithWarehouse(warehouses, w);
            && w in after
            && |after| == |warehouses| + (if Known(warehouses, w.id) then 0 else 1)
            && (forall i :: 0 <= i < |warehouses| && warehouses[i].id != w.id ==> after[i] == warehouses[i])
  {
    if warehouses != [] && warehouses[0].id != w.id {
      var rest := WithWarehouse(warehouses[1..], w);
      WarehouseSaved(warehouses[1..], w);
      assert WithWarehouse(warehouses, w) == [warehouses[0]] + rest;
      if Known(warehouses, w.id) {
        var k :| 0 <= k < |warehouses| && warehouses[k].id == w.id;
        assert warehouses[1..][k - 1].id == w.id;
      }
      if Known(warehouses[1..], w.id) {
        var k :| 0 <= k < |warehouses[1..]| && warehouses[1..][k].id == w.id;
        assert warehouses[k + 1].id == w.id;
      }
      forall i | 0 <= i < |warehouses| && warehouses[i].id != w.id
        ensures WithWarehouse(warehouses, w)[i] == warehouses[i]
      {
        if i > 0 { assert warehouses[i] == warehouses[1..][i - 1]; }
      }
    } else if warehouses != [] {
      assert Known(warehouses, w.id);
    }
  }

  /** Billing an order numbers all its new invoice lines alike, with a number never used, and
      leaves each of its shipment lines billed in full and every other as it was. */
  lemma InvoiceWrites(b: Books, order: OrderId)
    requires Valid(b)
    ensures var b' := InvoiceShipped(b, order);
            && b.billed <= b'.billed
            && b'.nextInvoice == b.nextInvoice + (if b'.billed == b.billed then 0 else 1)
            && (forall k :: |b.billed| <= k < |b'.billed| ==>
                  b'.billed[k].invoice == b.nextInvoice && b'.billed[k].shipmentLine < |b.shipmentLines|
                  && b.shipmentLines[b'.billed[k].shipmentLine].line.order == order)
            && |b'.shipmentLines| == |b.shipmentLines|
            && (forall j :: 0 <= j < |b.shipmentLines| ==>
                  b'.shipmentLines[j] == b.shipmentLines[j].(invoiced :=
                    if b.shipmentLines[j].line.order == order then b.shipmentLines[j].quantity
                    else b.shipmentLines[j].invoiced))
            && b' == b.(shipmentLines := b'.shipmentLines, billed := b'.billed, nextInvoice := b'.nextInvoice)
  {
    forall k | 0 <= k < |BilledFrom(b.shipmentLines, order, 0, b.nextInvoice)|
      ensures BillNumbered(BilledFrom(b.shipmentLines, order, 0, b.nextInvoice)[k], b.shipmentLines, order,
              b.nextInvoice)
    {
      BillsNumbered(b.shipmentLines, order, 0, b.nextInvoice, k);
    }
    BilledInFull(b, order);
  }

  predicate BillNumbered(bill: BilledLine, lines: seq<ShipmentLine>, order: OrderId, invoice: nat) {
    bill.invoice == invoice && bill.shipmentLine < |lines| && lines[bill.shipmentLine].line.order == order
  }

  lemma {:induction false} BillsNumbered(lines: seq<ShipmentLine>, order: OrderId, index: nat, invoice: nat, k: nat)
    requires index <= |lines| && k < |BilledFrom(lines, order, index, invoice)|
    ensures BillNumbered(BilledFrom(lines, order, index, invoice)[k], lines, order, invoice)
    decreases |lines| - index
  {
    if !Billable(lines[index], order) {
      assert BilledFrom(lines, order, index, invoice) == [] + BilledFrom(lines, order, index + 1, invoice);
      BillsNumbered(lines, order, index + 1, invoice, k);
    } else if k > 0 {
      BillsNumbered(lines, order, index + 1, invoice, k - 1);
    }
  }

  lemma BilledInFull(b: Books, order: OrderId)
    requires Valid(b)
    ensures forall j :: 0 <= j < |b.shipmentLines| ==>
              InvoiceShipped(b, order).shipmentLines[j] == b.shipmentLines[j].(invoiced :=
                if b.shipmentLines[j].line.order == order then b.shipmentLines[j].quantity
                else b.shipmentLines[j].invoiced)
    ensures |InvoiceShipped(b, order).shipmentLines| == |b.shipmentLines|
  {
    var issued := BilledFrom(b.shipmentLines, order, 0, b.nextInvoice);
    forall j | 0 <= j < |b.shipmentLines|
      ensures 0 <= b.shipmentLines[j].invoiced <= b.shipmentLines[j].quantity
      ensures Billable(b.shipmentLines[j], order) ==> issued != []
    {
      assert FromShipment(b.shipmentLines[j], b.shipments);
      if Billable(b.shipmentLines[j], order) { LedgerCalls.BilledAll(b.shipmentLines, order, 0, b.nextInvoice, j); }
    }
  }

  // ------------------------------------------------------- planning an order

  /** Units of a variant on the shelves of active warehouses. */
  function OnShelves(b: Books, variant: VariantId): int { Sum(Depths(StockFor(b.warehouses, b.stock, variant))) }

  predicate Short(b: Books, line: OrderLine) { Physical(line) && line.quantity > OnShelves(b, line.variant.value) }

  predicate AnyActive(warehouses: seq<Warehouse>) { exists w :: 0 <= w < |warehouses| && warehouses[w].active }

  lemma {:induction false} DefaultIffActive(warehouses: seq<Warehouse>)
    ensures DefaultWarehouse(warehouses).Some? <==> AnyActive(warehouses)
  {
    if warehouses != [] {
      DefaultIffActive(warehouses[1..]);
      assert warehouses == [warehouses[0]] + warehouses[1..];
      if AnyActive(warehouses[1..]) {
        var w :| 0 <= w < |warehouses[1..]| && warehouses[1..][w].active;
        assert warehouses[w + 1].active;
      }
      if w :| 0 <= w < |warehouses| && warehouses[w].active { assert w > 0 ==> warehouses[1..][w - 1].active; }
    }
  }

  /** A line can be planned unless it runs short with no active warehouse to wait at; what it
      runs short of waits at the default one, and nothing else does. */
  lemma LinePlannable(b: Books, id: LineId, line: OrderLine, next: nat)
    requires StockChecks(b.stock) && line.quantity > 0
    ensures PlanLine(b, id, line, next).Some? <==> (Short(b, line) ==> AnyActive(b.warehouses))
    ensures PlanLine(b, id, line, next).Some? ==> WaitsAtDefault(b, PlanLine(b, id, line, next).value)
  {
    DefaultIffActive(b.warehouses);
    if Physical(line) {
      var shelves := StockFor(b.warehouses, b.stock, line.variant.value);
      DepthsAreShelves(b.warehouses, b.stock, line.variant.value);
      TakesIsDraw(Depths(shelves), line.quantity);
      PlannedRowsAre(id, line.variant.value, shelves, Takes(Depths(shelves), line.quantity), next);
    }
  }

  predicate WaitsAtDefault(b: Books, rows: seq<Allocation>) {
    forall i :: 0 <= i < |rows| && rows[i].status == Backordered ==>
      DefaultWarehouse(b.warehouses).Some? && rows[i].warehouse == DefaultWarehouse(b.warehouses).value.id
  }

  lemma {:induction false} OrderPlannable(b: Books, order: OrderId, lines: seq<OrderLine>, p: nat, next: nat)
    requires StockChecks(b.stock) && LinesPositive(lines) && p <= |lines|
    ensures PlanFrom(b, order, lines, p, next).Some?
            <==> forall q :: p <= q < |lines| && Short(b, lines[q]) ==> AnyActive(b.warehouses)
    ensures PlanFrom(b, order, lines, p, next).Some? ==> WaitsAtDefault(b, PlanFrom(b, order, lines, p, next).value)
    decreases |lines| - p
  {
    if p < |lines| {
      LinePlannable(b, LineId(order, p), lines[p], next);
      if PlanLine(b, LineId(order, p), lines[p], next).Some? {
        OrderPlannable(b, order, lines, p + 1, next + |PlanLine(b, LineId(order, p), lines[p], next).value|);
      }
    }
  }

  /** What planning leaves: the rows of other orders, and after them a plan that allocates
      every physical line of this one in full; the status tells whether something waits. */
  ghost predicate PlanWritten(b: Books, b': Books, order: OrderId, lines: seq<OrderLine>) {
    && |b'.allocations| >= |Without(b.allocations, order)|
    && (var kept := |Without(b.allocations, order)|;
        var rows := b'.allocations[kept..];
        && b'.allocations[..kept] == Without(b.allocations, order)
        && (forall i :: 0 <= i < |rows| ==> NewRow(rows[i], order, lines))
        && (forall p :: 0 <= p < |lines| ==>
              Units(rows, LineId(order, p)) == if Physical(lines[p]) then lines[p].quantity else 0)
        && WaitsAtDefault(b, rows)
        && order in b'.orders
        && b'.orders[order].status == if AnyIs(rows, order, Backordered) then Backorder else SplitPending)
    && b'.orders[order].lines == lines
    && b' == b.(allocations := b'.allocations, nextAllocation := b'.nextAllocation,
                orders := b.orders[order := b'.orders[order]])
  }

  /** Planning an order replaces its plan, unless something of it has shipped or a line runs
      short with no active warehouse. */
  lemma PlanWrites(b: Books, order: OrderId)
    requires StockChecks(b.stock) && OrdersPositive(b.orders)
    ensures PlanSplit(b, order).Committed?
            <==> && order in b.orders && !Pointed(b, order)
                 && forall p :: 0 <= p < |b.orders[order].lines| && Short(b, b.orders[order].lines[p]) ==>
                      AnyActive(b.warehouses)
    ensures PlanSplit(b, order).Committed? ==>
              && PlanWritten(b, PlanSplit(b, order).value, order, b.orders[order].lines)
              && PlanSplit(b, order).value.orders[order].accepted == b.orders[order].accepted
  {
    if order in b.orders {
      var lines := b.orders[order].lines;
      assert HasHistory(b, order) <==> Pointed(b, order);
      OrderPlannable(b, order, lines, 0, b.nextAllocation);
      if PlanSplit(b, order).Committed? { PlanRowsWritten(b, order); }
    }
  }

  lemma PlanRowsWritten(b: Books, order: OrderId)
    requires StockChecks(b.stock) && OrdersPositive(b.orders) && PlanSplit(b, order).Committed?
    ensures PlanWritten(b, PlanSplit(b, order).value, order, b.orders[order].lines)
  {
    var lines, b' := b.orders[order].lines, PlanSplit(b, order).value;
    var rows := PlanFrom(b, order, lines, 0, b.nextAllocation).value;
    PlanFromCovers(b, order, lines, 0, b.nextAllocation);
    OrderPlannable(b, order, lines, 0, b.nextAllocation);
    assert b'.allocations[|Without(b.allocations, order)|..] == rows;
    assert AnyIs(rows, order, Backordered) <==> AnyBackordered(rows) by {
      if i :| 0 <= i < |rows| && rows[i].status == Backordered {
        assert NewRow(rows[i], order, lines) && OfOrder(rows[i], order);
      }
    }
  }

  /** The order's number with its lines, nothing planned yet. */
  function Placing(b: Books, order: OrderId, lines: seq<OrderLine>): Books {
    b.(orders := b.orders[order := Order(lines, false, SplitPending)])
  }

  /** Opening an order needs a new number, positive quantities and, where a line runs short,
      an active warehouse; it stores the lines, not accepted, with their plan. */
  lemma OpenWrites(b: Books, order: OrderId, lines: seq<OrderLine>)
    requires Valid(b)
    ensures OpenOrder(b, order, lines).Committed?
            <==> && order !in b.orders && LinesPositive(lines)
                 && forall p :: 0 <= p < |lines| && Short(b, lines[p]) ==> AnyActive(b.warehouses)
    ensures OpenOrder(b, order, lines).Committed? ==>
              && PlanWritten(Placing(b, order, lines), OpenOrder(b, order, lines).value, order, lines)
              && !OpenOrder(b, order, lines).value.orders[order].accepted
  {
    if order !in b.orders && LinesPositive(lines) {
      var placed := Placing(b, order, lines);
      NothingPointed(b, placed, order);
      OpenIsPlan(b, order, lines);
      forall p | 0 <= p < |lines| ensures Short(placed, lines[p]) == Short(b, lines[p]) { }
      PlanWrites(placed, order);
    }
  }

  lemma OpenIsPlan(b: Books, order: OrderId, lines: seq<OrderLine>)
    requires order !in b.orders && LinesPositive(lines)
    ensures OpenOrder(b, order, lines) == PlanSplit(Placing(b, order, lines), order)
  {
  }

  lemma NothingPointed(b: Books, placed: Books, order: OrderId)
    requires Valid(b) && order !in b.orders
    requires placed.allocations == b.allocations
    ensures !Pointed(placed, order)
  {
    forall i | 0 <= i < |b.allocations| ensures !OfOrder(b.allocations[i], order) {
      assert Placed(b.allocations[i], b.orders);
    }
  }

  // ---------------------------------------------------------- the refusals

  /** Why an acceptance, a dispatch or a restock is refused. */
  lemma LedgerRefusals(b: Books, order: OrderId, shipment: nat, key: ShelfKey, quantity: int)
    requires Valid(b)
    ensures AcceptSplit(b, order).Refused? ==>
              AcceptSplit(b, order).reason == if order !in b.orders then UnknownOrder else AlreadyAccepted
    ensures Ship(b, shipment).Refused? && shipment < |b.shipments| && b.shipments[shipment].order in b.orders ==>
              Ship(b, shipment).reason == if b.shipments[shipment].status == ShipmentOut then AlreadyShipped
                                          else NothingReserved
    ensures shipment >= |b.shipments| ==> Ship(b, shipment) == Refused(UnknownShipment)
    ensures Restock(b, key, quantity).Refused? ==>
              Restock(b, key, quantity).reason == if Known(b.warehouses, key.warehouse) then ConstraintViolated
                                                  else MissingReference
  {
    if shipment < |b.shipments| && b.shipments[shipment].order in b.orders {
      LedgerCalls.ShipNeverHitsTheChecks(b, shipment);
    }
  }

  predicate NamesLine(lines: seq<OrderLine>, row: OverrideRow) {
    row.position < |lines| && !lines[row.position].recurring
  }

  /** The first row that names no line that can ship, or no positive quantity. */
  predicate FirstBad(lines: seq<OrderLine>, rows: seq<OverrideRow>, i: nat) {
    && i < |rows| && !(NamesLine(lines, rows[i]) && rows[i].quantity > 0)
    && forall j :: 0 <= j < i ==> NamesLine(lines, rows[j]) && rows[j].quantity > 0
  }

  lemma {:induction false} FirstBadIsProblem(lines: seq<OrderLine>, rows: seq<OverrideRow>, i: nat)
    requires FirstBad(lines, rows, i)
    ensures RowProblem(lines, rows) == Some(if NamesLine(lines, rows[i]) then BadQuantity else UnknownLine)
  {
    if i > 0 {
      forall j | 0 <= j < i - 1 ensures NamesLine(lines, rows[1..][j]) && rows[1..][j].quantity > 0 {
        assert rows[1..][j] == rows[j + 1];
      }
      FirstBadIsProblem(lines, rows[1..], i - 1);
    }
  }

  /** Why an override is refused: an order that is missing or accepted first, then its rows in
      the order typed, then a line that does not get what was ordered. */
  lemma OverrideRefusals(b: Books, order: OrderId, rows: seq<OverrideRow>, i: nat, p: nat)
    ensures order !in b.orders ==> ManualOverride(b, order, rows) == Refused(UnknownOrder)
    ensures order in b.orders && b.orders[order].accepted ==> ManualOverride(b, order, rows) == Refused(AlreadyAccepted)
    ensures Unaccepted(b, order) && FirstBad(b.orders[order].lines, rows, i) ==>
              ManualOverride(b, order, rows)
                == Refused(if NamesLine(b.orders[order].lines, rows[i]) then BadQuantity else UnknownLine)
    ensures Unaccepted(b, order)
            && (forall j :: 0 <= j < |rows| ==> NamesLine(b.orders[order].lines, rows[j]) && rows[j].quantity > 0)
            && p < |b.orders[order].lines| && !b.orders[order].lines[p].recurring
            && AskedOf(rows, p) != b.orders[order].lines[p].quantity ==>
              ManualOverride(b, order, rows) == Refused(LineNotCovered)
  {
    if Unaccepted(b, order) {
      NoProblemIff(b.orders[order].lines, rows);
      AskedIsSupplied(rows, p);
      if FirstBad(b.orders[order].lines, rows, i) { FirstBadIsProblem(b.orders[order].lines, rows, i); }
    }
  }
}
