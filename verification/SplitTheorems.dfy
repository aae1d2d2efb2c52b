/** What the split planner, its acceptance and the shipments it opens promise, and exactly
    when they keep it. */
module SplitTheorems {
  import opened Outcomes
  import opened Numbers
  import opened SplitPlanner
  import opened Ledger
  import opened LedgerWalk
  import opened LedgerPlan
  import opened LedgerInvariant
  import opened LedgerTheorems

  // ------------------------------------------------------------ the tie-break

  /** This shelf covers the units, and sorting does not keep it from being the cheaper one:
      it is shallower than the deepest, or has a lower unit rate. */
  predicate Rival(shelves: seq<ShelfRow>, j: nat, units: int)
    requires shelves != []
  {
    && j < |shelves| && shelves[j].available >= units
    && (shelves[j].available < shelves[0].available || shelves[j].unitCost < shelves[0].unitCost)
  }

  lemma CheaperIff(x: ShelfRow, y: ShelfRow, units: int)
    requires units >= 0
    ensures ShippingCost(x, units) <= ShippingCost(y, units)
            <==> (x.unitCost - y.unitCost) * units <= y.baseCost - x.baseCost
    ensures x.baseCost <= y.baseCost && x.unitCost <= y.unitCost ==> ShippingCost(x, units) <= ShippingCost(y, units)
  {
    assert (x.unitCost - y.unitCost) * units == x.unitCost * units - y.unitCost * units;
  }

  /** A line that some shelf covers is planned whole from the deepest.  That is a cheapest
      covering shelf if and only if what each rival saves per unit is no more than what its
      base rate adds. */
  lemma DeepestWinsOverCheapest(b: Books, id: LineId, line: OrderLine, next: nat)
    requires StockChecks(b.stock) && Physical(line) && line.quantity > 0
    requires var shelves := StockFor(b.warehouses, b.stock, line.variant.value);
             exists j :: 0 <= j < |shelves| && shelves[j].available >= line.quantity
    ensures var shelves, units := StockFor(b.warehouses, b.stock, line.variant.value), line.quantity;
            && shelves != []
            && PlanLine(b, id, line, next)
                 == Some([Allocation(next, id, shelves[0].warehouse, line.variant.value, units, 0, Planned)])
            && ((forall j :: 0 <= j < |shelves| && shelves[j].available >= units ==>
                   ShippingCost(shelves[0], units) <= ShippingCost(shelves[j], units))
                <==>
                (forall j :: 0 <= j < |shelves| && Rival(shelves, j, units) ==>
                   (shelves[0].unitCost - shelves[j].unitCost) * units <= shelves[j].baseCost - shelves[0].baseCost))
  {
    var shelves, units := StockFor(b.warehouses, b.stock, line.variant.value), line.quantity;
    StockForIsTheQuery(b.warehouses, b.stock, line.variant.value);
    forall j | 0 < j < |shelves| ensures Precedes(shelves[0], shelves[j]) { }
    WholeFromDeepest(b, id, line, next);
    forall j | 0 <= j < |shelves| && shelves[j].available >= units
      ensures ShippingCost(shelves[0], units) <= ShippingCost(shelves[j], units)
              <==> (Rival(shelves, j, units) ==>
                      (shelves[0].unitCost - shelves[j].unitCost) * units <= shelves[j].baseCost - shelves[0].baseCost)
    {
      CheaperIff(shelves[0], shelves[j], units);
    }
  }

  lemma WholeFromDeepest(b: Books, id: LineId, line: OrderLine, next: nat)
    requires Physical(line) && line.quantity > 0
    requires var shelves := StockFor(b.warehouses, b.stock, line.variant.value);
             shelves != [] && shelves[0].available >= line.quantity
    ensures var top := StockFor(b.warehouses, b.stock, line.variant.value)[0].warehouse;
            PlanLine(b, id, line, next)
              == Some([Allocation(next, id, top, line.variant.value, line.quantity, 0, Planned)])
  {
    var shelves := StockFor(b.warehouses, b.stock, line.variant.value);
    var depths := Depths(shelves);
    var takes := Takes(depths, line.quantity);
    TakesLength(depths, line.quantity);
    assert depths[1..] == Depths(shelves[1..]);
    NoMoreTakes(id, line.variant.value, shelves[1..], 0, next + 1);
    assert takes[0] == line.quantity && takes[1..] == Takes(depths[1..], 0);
    var row := Allocation(next, id, shelves[0].warehouse, line.variant.value, line.quantity, 0, Planned);
    assert PlannedRows(id, line.variant.value, shelves, takes, next) == [row] + [] == [row];
  }

  // ------------------------------------------------- two warehouses at work

  /** Two active warehouses, the first listed first. */
  predicate TwoListed(w: Warehouse, v: Warehouse, x: int, y: int) {
    && w.id == 1 && v.id == 2 && w.active && v.active
    && Precedes(ShelfRow(1, x, w.baseCost, w.unitCost, w.nameRank), ShelfRow(2, y, v.baseCost, v.unitCost, v.nameRank))
  }

  /** They are stocked, and an order is placed that the first covers: it is planned there. */
  lemma PlannedFromFirst(w: Warehouse, v: Warehouse, x: int, y: int, units: int)
    requires TwoListed(w, v, x, y) && 0 < units <= x && 0 <= y
    ensures var b := Run(Opening([w, v]), [DoRestock(ShelfKey(1, 0), x), DoRestock(ShelfKey(2, 0), y),
                                           DoOpen(0, [OrderLine(Some(0), units, false)])]);
            b.allocations == [Allocation(0, LineId(0, 0), 1, 0, units, 0, Planned)]
  {
    var lines := [OrderLine(Some(0), units, false)];
    var stocked := TwoRestocks(w, v, x, y);
    var placed := stocked.(orders := map[0 := Order(lines, false, SplitPending)]);
    TwoShelves(w, v, placed.stock, x, y);
    WholeFromDeepest(placed, LineId(0, 0), lines[0], 0);
    assert PlanFrom(placed, 0, lines, 1, 1) == Some([]);
    var calls := [DoRestock(ShelfKey(1, 0), x), DoRestock(ShelfKey(2, 0), y)];
    RunSnoc(Opening([w, v]), calls, DoOpen(0, lines));
    assert calls + [DoOpen(0, lines)] == [DoRestock(ShelfKey(1, 0), x), DoRestock(ShelfKey(2, 0), y), DoOpen(0, lines)];
  }

  lemma TwoRestocks(w: Warehouse, v: Warehouse, x: int, y: int) returns (b: Books)
    requires w.id == 1 && v.id == 2 && x >= 0 && y >= 0
    ensures b == Run(Opening([w, v]), [DoRestock(ShelfKey(1, 0), x), DoRestock(ShelfKey(2, 0), y)])
    ensures b == Opening([w, v]).(stock := map[ShelfKey(1, 0) := Stock(x, 0), ShelfKey(2, 0) := Stock(y, 0)])
  {
    var start, first, second := Opening([w, v]), DoRestock(ShelfKey(1, 0), x), DoRestock(ShelfKey(2, 0), y);
    assert start.warehouses[0].id == 1 && start.warehouses[1].id == 2;
    RunSnoc(start, [], first);
    RunSnoc(start, [first], second);
    assert [] + [first] == [first] && [first] + [second] == [first, second];
    b := Run(start, [first, second]);
  }

  lemma TwoShelves(w: Warehouse, v: Warehouse, stock: StockTable, x: int, y: int)
    requires TwoListed(w, v, x, y)
    requires stock == map[ShelfKey(1, 0) := Stock(x, 0), ShelfKey(2, 0) := Stock(y, 0)]
    ensures StockFor([w, v], stock, 0)
         == [ShelfRow(1, x, w.baseCost, w.unitCost, w.nameRank), ShelfRow(2, y, v.baseCost, v.unitCost, v.nameRank)]
  {
    assert [w, v][1..] == [v] && [v][1..] == [];
    assert StockFor([v], stock, 0) == [ShelfRow(2, y, v.baseCost, v.unitCost, v.nameRank)];
  }

  /** Depth: two units, 5 at 10.00 + 1.00 a unit against 3 at 1.00 + 0.10 a unit.  They are
      planned where they cost 12.00, not where they cost 1.20. */
  lemma DearWarehouseChosen()
    ensures var w, v := Warehouse(1, true, 1000, 100, 0), Warehouse(2, true, 100, 10, 1);
            var b := Run(Opening([w, v]), [DoRestock(ShelfKey(1, 0), 5), DoRestock(ShelfKey(2, 0), 3),
                                           DoOpen(0, [OrderLine(Some(0), 2, false)])]);
            && b.allocations == [Allocation(0, LineId(0, 0), 1, 0, 2, 0, Planned)]
            && ShippingCost(ShelfRow(1, 5, 1000, 100, 0), 2) == 1200
            && ShippingCost(ShelfRow(2, 3, 100, 10, 1), 2) == 120
  {
    PlannedFromFirst(Warehouse(1, true, 1000, 100, 0), Warehouse(2, true, 100, 10, 1), 5, 3, 2);
  }

  /** A tie: five units, 5 at 1.00 + 10.00 a unit against 5 at 2.00 + 0.10 a unit.  They are
      planned where they cost 51.00, not where they cost 2.50. */
  lemma DearWarehouseWinsTie()
    ensures var w, v := Warehouse(1, true, 100, 1000, 0), Warehouse(2, true, 200, 10, 1);
            var b := Run(Opening([w, v]), [DoRestock(ShelfKey(1, 0), 5), DoRestock(ShelfKey(2, 0), 5),
                                           DoOpen(0, [OrderLine(Some(0), 5, false)])]);
            && b.allocations == [Allocation(0, LineId(0, 0), 1, 0, 5, 0, Planned)]
            && ShippingCost(ShelfRow(1, 5, 100, 1000, 0), 5) == 5100
            && ShippingCost(ShelfRow(2, 5, 200, 10, 1), 5) == 250
  {
    PlannedFromFirst(Warehouse(1, true, 100, 1000, 0), Warehouse(2, true, 200, 10, 1), 5, 5, 5);
  }

  // ------------------------------------------------ one warehouse would do

  function DeepestFor(b: Books, line: OrderLine): WarehouseId {
    if line.variant.None? || StockFor(b.warehouses, b.stock, line.variant.value) == [] then 0
    else StockFor(b.warehouses, b.stock, line.variant.value)[0].warehouse
  }

  /** The warehouse alone covers the line. */
  predicate Covers(b: Books, w: WarehouseId, line: OrderLine)
    requires Physical(line)
  {
    var shelves := StockFor(b.warehouses, b.stock, line.variant.value);
    exists j :: 0 <= j < |shelves| && shelves[j].warehouse == w && shelves[j].available >= line.quantity
  }

  function UsedBy(rows: seq<Allocation>): set<WarehouseId> { set a | a in rows :: a.warehouse }

  function DeepestFrom(b: Books, lines: seq<OrderLine>, p: nat): set<WarehouseId> {
    set q | p <= q < |lines| && Physical(lines[q]) :: DeepestFor(b, lines[q])
  }

  lemma CoveredIsWhole(b: Books, id: LineId, line: OrderLine, next: nat, w: WarehouseId)
    requires Physical(line) && line.quantity > 0 && Covers(b, w, line)
    ensures PlanLine(b, id, line, next)
         == Some([Allocation(next, id, DeepestFor(b, line), line.variant.value, line.quantity, 0, Planned)])
  {
    var shelves := StockFor(b.warehouses, b.stock, line.variant.value);
    StockForIsTheQuery(b.warehouses, b.stock, line.variant.value);
    var j :| 0 <= j < |shelves| && shelves[j].warehouse == w && shelves[j].available >= line.quantity;
    assert j > 0 ==> Precedes(shelves[0], shelves[j]);
    WholeFromDeepest(b, id, line, next);
  }

  lemma UsedByConcat(xs: seq<Allocation>, ys: seq<Allocation>)
    ensures UsedBy(xs + ys) == UsedBy(xs) + UsedBy(ys)
  {
  }

  lemma DeepestStep(b: Books, lines: seq<OrderLine>, p: nat)
    requires p < |lines|
    ensures DeepestFrom(b, lines, p)
         == (if Physical(lines[p]) then {DeepestFor(b, lines[p])} else {}) + DeepestFrom(b, lines, p + 1)
  {
  }

  lemma LineUsesDeepest(b: Books, id: LineId, line: OrderLine, next: nat, w: WarehouseId)
    requires Physical(line) ==> line.quantity > 0 && Covers(b, w, line)
    ensures PlanLine(b, id, line, next).Some?
    ensures UsedBy(PlanLine(b, id, line, next).value) == if Physical(line) then {DeepestFor(b, line)} else {}
  {
    if Physical(line) { CoveredIsWhole(b, id, line, next, w); }
  }

  /** One warehouse could fill the order on its own. */
  ghost predicate Fills(b: Books, w: WarehouseId, lines: seq<OrderLine>) {
    forall q :: 0 <= q < |lines| && Physical(lines[q]) ==> lines[q].quantity > 0 && Covers(b, w, lines[q])
  }

  lemma PlanStep(b: Books, order: OrderId, lines: seq<OrderLine>, p: nat, next: nat, here: seq<Allocation>)
    requires p < |lines| && PlanLine(b, LineId(order, p), lines[p], next) == Some(here)
    requires PlanFrom(b, order, lines, p + 1, next + |here|).Some?
    ensures PlanFrom(b, order, lines, p, next)
            == Some(here + PlanFrom(b, order, lines, p + 1, next + |here|).value)
  {
  }

  lemma {:induction false} PlanUsesDeepest(
      b: Books, order: OrderId, lines: seq<OrderLine>, p: nat, next: nat, w: WarehouseId)
    requires p <= |lines| && Fills(b, w, lines)
    ensures PlanFrom(b, order, lines, p, next).Some?
    ensures UsedBy(PlanFrom(b, order, lines, p, next).value) == DeepestFrom(b, lines, p)
    decreases |lines| - p
  {
    if p < |lines| {
      LineUsesDeepest(b, LineId(order, p), lines[p], next, w);
      var here := PlanLine(b, LineId(order, p), lines[p], next).value;
      PlanUsesDeepest(b, order, lines, p + 1, next + |here|, w);
      PlanStep(b, order, lines, p, next, here);
      UsedByConcat(here, PlanFrom(b, order, lines, p + 1, next + |here|).value);
      DeepestStep(b, lines, p);
    }
  }

  lemma SingletonIff(s: set<WarehouseId>, w: WarehouseId)
    requires w in s
    ensures |s| == 1 <==> forall v :: v in s ==> v == w
  {
    if forall v :: v in s ==> v == w { assert s == {w}; }
    if |s| == 1 { assert |s - {w}| == 0; }
  }

  /** Lines are planned one by one.  An order that one warehouse could fill on its own is
      planned from a single one if and only if all its lines are deepest at the same. */
  lemma OneWarehouseIff(b: Books, order: OrderId, lines: seq<OrderLine>, next: nat, w: WarehouseId, p: nat)
    requires Fills(b, w, lines) && p < |lines| && Physical(lines[p])
    ensures PlanFrom(b, order, lines, 0, next).Some?
    ensures |UsedBy(PlanFrom(b, order, lines, 0, next).value)| == 1
            <==> forall q :: 0 <= q < |lines| && Physical(lines[q]) ==>
                DeepestFor(b, lines[q]) == DeepestFor(b, lines[p])
  {
    PlanUsesDeepest(b, order, lines, 0, next, w);
    assert DeepestFor(b, lines[p]) in DeepestFrom(b, lines, 0);
    SingletonIff(DeepestFrom(b, lines, 0), DeepestFor(b, lines[p]));
    forall q | 0 <= q < |lines| && Physical(lines[q]) ensures DeepestFor(b, lines[q]) in DeepestFrom(b, lines, 0) { }
  }

  /** Two warehouses, one unit each of two variants: either could fill the order, and the
      plan takes one line from each. */
  lemma TwoLinesApart(b: Books, x: OrderLine, y: OrderLine)
    requires b.warehouses == [Warehouse(1, true, 0, 0, 0), Warehouse(2, true, 0, 0, 1)]
    requires b.stock == map[ShelfKey(1, 0) := Stock(5, 0), ShelfKey(2, 0) := Stock(2, 0),
                            ShelfKey(1, 1) := Stock(2, 0), ShelfKey(2, 1) := Stock(5, 0)]
    requires x == OrderLine(Some(0), 1, false) && y == OrderLine(Some(1), 1, false)
    ensures Covers(b, 1, x) && Covers(b, 1, y)
    ensures PlanFrom(b, 0, [x, y], 0, 0).Some? && UsedBy(PlanFrom(b, 0, [x, y], 0, 0).value) == {1, 2}
  {
    assert b.warehouses[1..] == [b.warehouses[1]] && b.warehouses[1..][1..] == [];
    assert StockFor(b.warehouses[1..], b.stock, 0) == [ShelfRow(2, 2, 0, 0, 1)];
    assert StockFor(b.warehouses[1..], b.stock, 1) == [ShelfRow(2, 5, 0, 0, 1)];
    var xs, ys := StockFor(b.warehouses, b.stock, 0), StockFor(b.warehouses, b.stock, 1);
    assert xs == [ShelfRow(1, 5, 0, 0, 0), ShelfRow(2, 2, 0, 0, 1)];
    assert [ShelfRow(2, 5, 0, 0, 1)][1..] == [];
    assert ys == [ShelfRow(2, 5, 0, 0, 1), ShelfRow(1, 2, 0, 0, 0)];
    assert xs[0].warehouse == 1 && ys[1].warehouse == 1;
    PlanUsesDeepest(b, 0, [x, y], 0, 0, 1);
    assert DeepestFrom(b, [x, y], 2) == {};
    DeepestStep(b, [x, y], 1);
    DeepestStep(b, [x, y], 0);
  }

  // -------------------------------------------------- accepting a plan whole

  /** Units the order's PLANNED rows expect from a shelf. */
  function PlannedAt(rows: seq<Allocation>, order: OrderId, key: ShelfKey): int {
    if rows == [] then 0
    else
      (if Eligible(Accepting(order), rows[0]) && Shelf(rows[0]) == key then rows[0].quantity else 0)
      + PlannedAt(rows[1..], order, key)
  }

  ghost predicate Fits(rows: seq<Allocation>, stock: StockTable, order: OrderId) {
    forall key :: PlannedAt(rows, order, key) <= AvailableAt(stock, key)
  }

  ghost predicate AllReserved(rows: seq<Allocation>, after: seq<Allocation>, order: OrderId) {
    forall i :: 0 <= i < |rows| && i < |after| && Eligible(Accepting(order), rows[i]) ==> after[i].status == Reserved
  }

  lemma {:induction false} PlannedNonNegative(rows: seq<Allocation>, order: OrderId, key: ShelfKey)
    requires AllSound(rows)
    ensures PlannedAt(rows, order, key) >= 0
  {
    if rows != [] {
      assert Sound(rows[0]);
      PlannedNonNegative(rows[1..], order, key);
    }
  }

  /** The head row is held and takes its units, or is none of the order's. */
  lemma HeadFits(rows: seq<Allocation>, stock: StockTable, order: OrderId)
    requires rows != [] && AllSound(rows)
    ensures var a, stock' := rows[0], MovedStock(Accepting(order), rows[0], stock);
            Fits(rows, stock, order)
            <==> && Fits(rows[1..], stock', order)
                 && (Eligible(Accepting(order), a) ==> Succeeds(Accepting(order), a, stock))
  {
    var a, rest, move := rows[0], rows[1..], Accepting(order);
    var stock' := MovedStock(move, a, stock);
    assert Sound(a);
    PlannedNonNegative(rest, order, Shelf(a));
    assert PlannedAt(rows, order, Shelf(a))
        == (if Eligible(move, a) then a.quantity else 0) + PlannedAt(rest, order, Shelf(a));
    if Fits(rows, stock, order) {
      assert PlannedAt(rows, order, Shelf(a)) <= AvailableAt(stock, Shelf(a));
      forall key ensures PlannedAt(rest, order, key) <= AvailableAt(stock', key) {
        assert PlannedAt(rows, order, key) <= AvailableAt(stock, key);
      }
    }
    if Fits(rest, stock', order) && (Eligible(move, a) ==> Succeeds(move, a, stock)) {
      forall key ensures PlannedAt(rows, order, key) <= AvailableAt(stock, key) {
        assert PlannedAt(rest, order, key) <= AvailableAt(stock', key);
      }
    }
  }

  lemma {:induction false} AllReservedIff(rows: seq<Allocation>, stock: StockTable, order: OrderId)
    requires AllSound(rows) && forall key :: AvailableAt(stock, key) >= 0
    ensures AllReserved(rows, Walk(Accepting(order), rows, stock).allocations, order) <==> Fits(rows, stock, order)
  {
    if rows != [] {
      var move := Accepting(order);
      var stock' := MovedStock(move, rows[0], stock);
      var p, rest := Walk(move, rows, stock), Walk(move, rows[1..], stock');
      WalkRows(move, rows, stock);
      WalkRows(move, rows[1..], stock');
      HeadFits(rows, stock, order);
      forall key ensures AvailableAt(stock', key) >= 0 { assert AvailableAt(stock, key) >= 0; }
      AllReservedIff(rows[1..], stock', order);
      assert p.allocations[1..] == rest.allocations;
      if AllReserved(rows, p.allocations, order) {
        assert Eligible(move, rows[0]) ==> p.allocations[0].status == Reserved;
        forall i | 0 <= i < |rows[1..]| && Eligible(move, rows[1..][i]) ensures rest.allocations[i].status == Reserved {
          assert rows[i + 1] == rows[1..][i] && p.allocations[i + 1] == rest.allocations[i];
        }
      }
      if Fits(rows, stock, order) {
        forall i | 0 <= i < |rows| && Eligible(move, rows[i]) ensures p.allocations[i].status == Reserved {
          if i > 0 { assert rows[i] == rows[1..][i - 1] && p.allocations[i] == rest.allocations[i - 1]; }
        }
      }
    }
  }

  /** Acceptance reserves every PLANNED row of the order if and only if, on each shelf, its
      planned rows together ask for no more than is available. */
  lemma AcceptReservesAllIff(b: Books, order: OrderId)
    requires Valid(b) && AcceptSplit(b, order).Committed?
    ensures AllReserved(b.allocations, AcceptSplit(b, order).value.allocations, order)
            <==> Fits(b.allocations, b.stock, order)
  {
    forall key ensures AvailableAt(b.stock, key) >= 0 {
      if key in b.stock { assert 0 <= b.stock[key].reserved <= b.stock[key].onHand; }
    }
    AllReservedIff(b.allocations, b.stock, order);
  }

  /** Two lines of one variant, a unit each, and two warehouses with a unit each: both are
      planned at the first, acceptance backorders one, and the second warehouse keeps its
      unit. */
  lemma SameUnitPromisedTwice()
    ensures var line := OrderLine(Some(0), 1, false);
            var b := Run(Opening([Warehouse(1, true, 0, 0, 0), Warehouse(2, true, 0, 0, 1)]),
                         [DoRestock(ShelfKey(1, 0), 1), DoRestock(ShelfKey(2, 0), 1),
                          DoOpen(0, [line, line]), DoAccept(0)]);
            && b.allocations == [Allocation(0, LineId(0, 0), 1, 0, 1, 0, Reserved),
                                 Allocation(1, LineId(0, 1), 1, 0, 1, 0, Backordered)]
            && AvailableAt(b.stock, ShelfKey(2, 0)) == 1
  {
    var w, v, line := Warehouse(1, true, 0, 0, 0), Warehouse(2, true, 0, 0, 1), OrderLine(Some(0), 1, false);
    var stocked := TwoRestocks(w, v, 1, 1);
    var open, accept := DoOpen(0, [line, line]), DoAccept(0);
    var planned := PlansBothThere(stocked, w, v, [line, line]);
    HoldsOne(planned);
    var calls := [DoRestock(ShelfKey(1, 0), 1), DoRestock(ShelfKey(2, 0), 1)];
    RunSnoc(Opening([w, v]), calls, open);
    RunSnoc(Opening([w, v]), calls + [open], accept);
    assert calls + [open] + [accept]
        == [DoRestock(ShelfKey(1, 0), 1), DoRestock(ShelfKey(2, 0), 1), open, accept];
  }

  lemma PlansBothThere(b: Books, w: Warehouse, v: Warehouse, lines: seq<OrderLine>) returns (planned: Books)
    requires TwoListed(w, v, 1, 1)
    requires b == Opening([w, v]).(stock := map[ShelfKey(1, 0) := Stock(1, 0), ShelfKey(2, 0) := Stock(1, 0)])
    requires lines == [OrderLine(Some(0), 1, false), OrderLine(Some(0), 1, false)]
    ensures Attempt(b, DoOpen(0, lines)) == Committed(planned)
    ensures planned.allocations == [Allocation(0, LineId(0, 0), 1, 0, 1, 0, Planned),
                                    Allocation(1, LineId(0, 1), 1, 0, 1, 0, Planned)]
    ensures planned.stock == b.stock && 0 in planned.orders && !planned.orders[0].accepted
  {
    var placed := b.(orders := map[0 := Order(lines, false, SplitPending)]);
    BothFromFirst(placed, w, v, lines);
    planned := PlanSplit(placed, 0).value;
  }

  lemma BothFromFirst(b: Books, w: Warehouse, v: Warehouse, lines: seq<OrderLine>)
    requires TwoListed(w, v, 1, 1) && b.warehouses == [w, v]
    requires b.stock == map[ShelfKey(1, 0) := Stock(1, 0), ShelfKey(2, 0) := Stock(1, 0)]
    requires lines == [OrderLine(Some(0), 1, false), OrderLine(Some(0), 1, false)]
    ensures PlanFrom(b, 0, lines, 0, 0) == Some([Allocation(0, LineId(0, 0), 1, 0, 1, 0, Planned),
                                                 Allocation(1, LineId(0, 1), 1, 0, 1, 0, Planned)])
  {
    TwoShelves(w, v, b.stock, 1, 1);
    WholeFromDeepest(b, LineId(0, 0), lines[0], 0);
    WholeFromDeepest(b, LineId(0, 1), lines[1], 1);
    assert PlanFrom(b, 0, lines, 2, 2) == Some([]);
    var first := [Allocation(0, LineId(0, 0), 1, 0, 1, 0, Planned)];
    var second := [Allocation(1, LineId(0, 1), 1, 0, 1, 0, Planned)];
    assert second + [] == second && PlanFrom(b, 0, lines, 1, 1) == Some(second);
    assert first + second == [first[0], second[0]] && PlanFrom(b, 0, lines, 0, 0) == Some(first + second);
  }

  lemma HoldsOne(b: Books)
    requires b.allocations == [Allocation(0, LineId(0, 0), 1, 0, 1, 0, Planned),
                               Allocation(1, LineId(0, 1), 1, 0, 1, 0, Planned)]
    requires b.stock == map[ShelfKey(1, 0) := Stock(1, 0), ShelfKey(2, 0) := Stock(1, 0)]
    requires 0 in b.orders && !b.orders[0].accepted
    ensures var e := AcceptSplit(b, 0);
            && e.Committed?
            && e.value.allocations == [Allocation(0, LineId(0, 0), 1, 0, 1, 0, Reserved),
                                       Allocation(1, LineId(0, 1), 1, 0, 1, 0, Backordered)]
            && AvailableAt(e.value.stock, ShelfKey(2, 0)) == 1
  {
    var held := Hold(b.stock, ShelfKey(1, 0), 1);
    assert b.allocations[1..][1..] == [];
    assert Walk(Accepting(0), b.allocations[1..][1..], held) == Pass([], held, []);
    assert Walk(Accepting(0), b.allocations[1..], held).allocations
        == [Allocation(1, LineId(0, 1), 1, 0, 1, 0, Backordered)];
  }

  // ---------------------------------------- one planned shipment per warehouse

  ghost predicate OnePlannedEach(shipments: seq<Shipment>) {
    forall i, j :: 0 <= i < j < |shipments| && shipments[i].status == ShipmentPlanned ==> shipments[i] != shipments[j]
  }

  lemma {:induction false} WarehousesDistinct(rows: seq<Allocation>)
    ensures forall i, j :: 0 <= i < j < |WarehousesOf(rows)| ==> WarehousesOf(rows)[i] != WarehousesOf(rows)[j]
    ensures forall w :: w in WarehousesOf(rows) <==> exists a :: a in rows && a.warehouse == w
  {
    if rows != [] {
      var front, last := rows[..|rows| - 1], rows[|rows| - 1];
      WarehousesDistinct(front);
      assert rows == front + [last];
    }
  }

  /** A newly reserved row's warehouse has a planned shipment of the order already. */
  predicate Doubles(b: Books, order: OrderId) {
    exists a :: a in Walk(Accepting(order), b.allocations, b.stock).moved
                && HasPlannedShipment(b.shipments, order, a.warehouse)
  }

  /** Acceptance keeps one planned shipment per order and warehouse if and only if no row
      it reserves is at a warehouse that has one. */
  lemma AcceptKeepsOnePlannedIff(b: Books, order: OrderId)
    requires OnePlannedEach(b.shipments) && AcceptSplit(b, order).Committed?
    ensures OnePlannedEach(AcceptSplit(b, order).value.shipments) <==> !Doubles(b, order)
  {
    var moved := Walk(Accepting(order), b.allocations, b.stock).moved;
    var before, warehouses := b.shipments, WarehousesOf(moved);
    var after := before + PlannedShipments(order, warehouses);
    WarehousesDistinct(moved);
    if Doubles(b, order) {
      var a :| a in moved && HasPlannedShipment(before, order, a.warehouse);
      assert a.warehouse in warehouses;
      var k :| 0 <= k < |warehouses| && warehouses[k] == a.warehouse;
      var i :| 0 <= i < |before| && before[i] == Shipment(order, a.warehouse, ShipmentPlanned);
      assert after[i] == after[|before| + k];
    } else {
      forall i, j | 0 <= i < j < |after| && after[i].status == ShipmentPlanned ensures after[i] != after[j] {
        if i < |before| <= j { assert warehouses[j - |before|] in warehouses; }
      }
    }
  }

  lemma {:induction false} FoldingKeepsOnePlanned(shipments: seq<Shipment>, moved: seq<Allocation>)
    requires OnePlannedEach(shipments)
    ensures OnePlannedEach(Consolidated(shipments, moved))
    decreases |moved|
  {
    if moved != [] {
      var a := moved[0];
      var planned := Shipment(a.line.order, a.warehouse, ShipmentPlanned);
      FoldingKeepsOnePlanned(if planned in shipments then shipments else shipments + [planned], moved[1..]);
    }
  }

  predicate DoublesBy(b: Books, call: Call) {
    call.DoAccept? && Attempt(b, call).Committed? && Doubles(b, call.order)
  }

  /** Nothing but such an acceptance ever opens a second one. */
  lemma CallKeepsOnePlannedIff(b: Books, call: Call)
    requires OnePlannedEach(b.shipments)
    ensures OnePlannedEach(After(Attempt(b, call), b).shipments) <==> !DoublesBy(b, call)
  {
    if Attempt(b, call).Committed? {
      match call
      case DoAccept(order) => AcceptKeepsOnePlannedIff(b, order);
      case DoSweep => FoldingKeepsOnePlanned(b.shipments, Walk(Sweeping, b.allocations, b.stock).moved);
      case DoShip(shipment) =>
        var after := Attempt(b, call).value.shipments;
        forall i, j | 0 <= i < j < |after| && after[i].status == ShipmentPlanned ensures after[i] != after[j] {
          assert i != shipment && after[i] == b.shipments[i];
        }
      case _ =>
    }
  }

  /** No call of the run is such an acceptance. */
  ghost predicate NeverDoubles(b: Books, calls: seq<Call>) {
    calls == [] ||
    (NeverDoubles(b, calls[..|calls| - 1]) && !DoublesBy(Run(b, calls[..|calls| - 1]), calls[|calls| - 1]))
  }

  lemma {:induction false} OnePlannedOnSuchRuns(warehouses: seq<Warehouse>, calls: seq<Call>)
    requires NeverDoubles(Opening(warehouses), calls)
    ensures OnePlannedEach(Run(Opening(warehouses), calls).shipments)
  {
    if calls != [] {
      OnePlannedOnSuchRuns(warehouses, calls[..|calls| - 1]);
      CallKeepsOnePlannedIff(Run(Opening(warehouses), calls[..|calls| - 1]), calls[|calls| - 1]);
    }
  }

  /** One unit on hand, two ordered, the second arrives and is swept before acceptance: two
      planned shipments of one order leave one warehouse, and once the first has gone the
      second has nothing to ship. */
  lemma SecondShipmentIsEmpty(w: Warehouse)
    requires w == Warehouse(1, true, 0, 0, 0)
    ensures var planned := Shipment(0, 1, ShipmentPlanned);
            var b := Run(Opening([w]), [DoRestock(ShelfKey(1, 0), 1), DoOpen(0, [OrderLine(Some(0), 2, false)]),
                                        DoRestock(ShelfKey(1, 0), 2), DoSweep, DoAccept(0)]);
            && b.shipments == [planned, planned]
            && Ship(b, 0).Committed? && Ship(Ship(b, 0).value, 1) == Refused(NothingReserved)
  {
    var c1, c2, c3 := DoRestock(ShelfKey(1, 0), 1), DoOpen(0, [OrderLine(Some(0), 2, false)]),
        DoRestock(ShelfKey(1, 0), 2);
    var swept := SweptEarly(w, [c1, c2, c3, DoSweep]);
    var b := AcceptsFirst(swept, swept.allocations[0], swept.allocations[1]);
    RunSnoc(Opening([w]), [c1, c2, c3, DoSweep], DoAccept(0));
    assert [c1, c2, c3, DoSweep] + [DoAccept(0)] == [c1, c2, c3, DoSweep, DoAccept(0)];
    var p := BothLeaveTogether(b.allocations, b.stock, Dispatching(0, 1));
    ShipsThenNothing(b, 0, 1, Dispatching(0, 1), p);
  }

  lemma SweptEarly(w: Warehouse, calls: seq<Call>) returns (b: Books)
    requires w == Warehouse(1, true, 0, 0, 0)
    requires calls == [DoRestock(ShelfKey(1, 0), 1), DoOpen(0, [OrderLine(Some(0), 2, false)]),
                       DoRestock(ShelfKey(1, 0), 2), DoSweep]
    ensures b == Run(Opening([w]), calls)
    ensures b.allocations
            == [Allocation(0, LineId(0, 0), 1, 0, 1, 0, Planned), Allocation(1, LineId(0, 0), 1, 0, 1, 0, Reserved)]
    ensures b.stock == map[ShelfKey(1, 0) := Stock(2, 1)] && b.shipments == [Shipment(0, 1, ShipmentPlanned)]
    ensures 0 in b.orders && !b.orders[0].accepted
  {
    var first, second := Allocation(0, LineId(0, 0), 1, 0, 1, 0, Planned),
        Allocation(1, LineId(0, 0), 1, 0, 1, 0, Backordered);
    var key := ShelfKey(1, 0);
    var b1 := Opening([w]).(stock := map[key := Stock(1, 0)]);
    var b2 := PlansHalf(b1, w, calls[1].lines, first, second);
    var b3 := b2.(stock := map[key := Stock(2, 0)]);
    b := SweepsSecond(b3, first, second);
    assert Opening([w]).warehouses[0].id == 1 && b2.warehouses[0].id == 1;
    assert b2.stock[key := Stock(2, 0)] == b3.stock;
    RunOfFour(Opening([w]), calls, b1, b2, b3, b);
  }

  lemma PlansHalf(b: Books, w: Warehouse, lines: seq<OrderLine>, first: Allocation, second: Allocation)
    returns (b': Books)
    requires w == Warehouse(1, true, 0, 0, 0) && lines == [OrderLine(Some(0), 2, false)]
    requires b == Opening([w]).(stock := map[ShelfKey(1, 0) := Stock(1, 0)])
    requires first == Allocation(0, LineId(0, 0), 1, 0, 1, 0, Planned)
    requires second == Allocation(1, LineId(0, 0), 1, 0, 1, 0, Backordered)
    ensures Attempt(b, DoOpen(0, lines)) == Committed(b')
    ensures b'.allocations == [first, second] && b'.stock == b.stock && b'.shipments == [] && b'.warehouses == [w]
    ensures 0 in b'.orders && !b'.orders[0].accepted
  {
    var placed := b.(orders := map[0 := Order(lines, false, SplitPending)]);
    OneShelfHalf(placed, lines[0], first, second);
    assert PlanFrom(placed, 0, lines, 1, 2) == Some([]);
    assert [first, second] + [] == [first, second];
    assert PlanFrom(placed, 0, lines, 0, 0) == Some([first, second]);
    b' := PlanSplit(placed, 0).value;
  }

  lemma OneShelfHalf(b: Books, line: OrderLine, first: Allocation, second: Allocation)
    requires b.warehouses == [Warehouse(1, true, 0, 0, 0)] && b.stock == map[ShelfKey(1, 0) := Stock(1, 0)]
    requires line == OrderLine(Some(0), 2, false)
    requires first == Allocation(0, LineId(0, 0), 1, 0, 1, 0, Planned)
    requires second == Allocation(1, LineId(0, 0), 1, 0, 1, 0, Backordered)
    ensures PlanLine(b, LineId(0, 0), line, 0) == Some([first, second])
  {
    var shelves := StockFor(b.warehouses, b.stock, 0);
    assert b.warehouses[1..] == [] && StockFor([], b.stock, 0) == [];
    assert shelves == [ShelfRow(1, 1, 0, 0, 0)];
    assert Depths(shelves) == [1] && [1][1..] == [];
    assert Takes([1], 2) == [1] + Takes([], 1) == [1];
    assert shelves[1..] == [] && PlannedRows(LineId(0, 0), 0, [], [], 1) == [];
    assert PlannedRows(LineId(0, 0), 0, shelves, [1], 0) == [first];
    assert Sum([1]) == 1 && [first] + [second] == [first, second] && DefaultWarehouse([]).None?;
    assert DefaultWarehouse(b.warehouses) == Some(b.warehouses[0]);
  }

  lemma SweepsSecond(b: Books, first: Allocation, second: Allocation) returns (b': Books)
    requires b.allocations == [first, second] && b.shipments == [] && b.stock == map[ShelfKey(1, 0) := Stock(2, 0)]
    requires first == Allocation(0, LineId(0, 0), 1, 0, 1, 0, Planned)
    requires second == Allocation(1, LineId(0, 0), 1, 0, 1, 0, Backordered)
    requires 0 in b.orders && !b.orders[0].accepted
    ensures Attempt(b, DoSweep) == Committed(b')
    ensures b'.allocations == [first, second.(status := Reserved)] && b'.stock == map[ShelfKey(1, 0) := Stock(2, 1)]
    ensures b'.shipments == [Shipment(0, 1, ShipmentPlanned)] && 0 in b'.orders && !b'.orders[0].accepted
  {
    var held := Hold(b.stock, ShelfKey(1, 0), 1);
    assert held == map[ShelfKey(1, 0) := Stock(2, 1)] && [first, second][1..] == [second] && [second][1..] == [];
    assert Walk(Sweeping, [second], b.stock) == Pass([second.(status := Reserved)], held, [second]);
    assert Walk(Sweeping, [first, second], b.stock) == Pass([first, second.(status := Reserved)], held, [second]);
    assert [second][1..] == [] && [] + [Shipment(0, 1, ShipmentPlanned)] == [Shipment(0, 1, ShipmentPlanned)];
    assert Consolidated([], [second]) == Consolidated([Shipment(0, 1, ShipmentPlanned)], []);
    b' := ConsolidateBackorders(b);
  }

  lemma AcceptsFirst(b: Books, first: Allocation, second: Allocation) returns (b': Books)
    requires b.allocations == [first, second] && b.stock == map[ShelfKey(1, 0) := Stock(2, 1)]
    requires first == Allocation(0, LineId(0, 0), 1, 0, 1, 0, Planned)
    requires second == Allocation(1, LineId(0, 0), 1, 0, 1, 0, Reserved)
    requires b.shipments == [Shipment(0, 1, ShipmentPlanned)] && 0 in b.orders && !b.orders[0].accepted
    ensures Attempt(b, DoAccept(0)) == Committed(b')
    ensures b'.allocations == [first.(status := Reserved), second] && b'.stock == map[ShelfKey(1, 0) := Stock(2, 2)]
    ensures b'.shipments == [Shipment(0, 1, ShipmentPlanned), Shipment(0, 1, ShipmentPlanned)] && 0 in b'.orders
  {
    var held := Hold(b.stock, ShelfKey(1, 0), 1);
    assert held == map[ShelfKey(1, 0) := Stock(2, 2)] && [first, second][1..] == [second] && [second][1..] == [];
    assert Walk(Accepting(0), [second], held) == Pass([second], held, []);
    assert Walk(Accepting(0), [first, second], b.stock) == Pass([first.(status := Reserved), second], held, [first]);
    assert WarehousesOf([first]) == [1] by { assert [first][..0] == []; }
    b' := AcceptSplit(b, 0).value;
  }

  /** After a dispatch that leaves nothing behind, another of the same warehouse is empty. */
  lemma ShipsThenNothing(b: Books, k: nat, m: nat, move: Move, p: Pass)
    requires k < |b.shipments| && m < |b.shipments| && k != m && b.shipments[k] == b.shipments[m]
    requires b.shipments[k].status == ShipmentPlanned && b.shipments[k].order in b.orders
    requires move == Dispatching(b.shipments[k].order, b.shipments[k].warehouse)
    requires p == Walk(move, b.allocations, b.stock) && p.moved != [] && StockChecks(p.stock)
    requires Walk(move, p.allocations, p.stock).moved == []
    ensures Ship(b, k).Committed? && Ship(Ship(b, k).value, m) == Refused(NothingReserved)
  {
    var b' := ShipCommits(b, k, move, p.stock);
    ShipFindsNothing(b', m, move);
  }

  lemma BothLeaveTogether(rows: seq<Allocation>, stock: StockTable, move: Move) returns (p: Pass)
    requires move == Dispatching(0, 1) && stock == map[ShelfKey(1, 0) := Stock(2, 2)]
    requires rows
             == [Allocation(0, LineId(0, 0), 1, 0, 1, 0, Reserved), Allocation(1, LineId(0, 0), 1, 0, 1, 0, Reserved)]
    ensures p == Walk(move, rows, stock) && p.moved != [] && StockChecks(p.stock)
    ensures Walk(move, p.allocations, p.stock).moved == []
  {
    var none := BothLeave(move, rows[0], rows[1], stock);
    p := Walk(move, [rows[0], rows[1]], stock);
    NoneLeft(move, p.allocations[0], p.allocations[1], none);
    assert p.allocations == [p.allocations[0], p.allocations[1]] && rows == [rows[0], rows[1]];
  }

  lemma ShipCommits(b: Books, k: nat, move: Move, left: StockTable) returns (b': Books)
    requires k < |b.shipments| && b.shipments[k].status == ShipmentPlanned && b.shipments[k].order in b.orders
    requires move == Dispatching(b.shipments[k].order, b.shipments[k].warehouse)
    requires var p := Walk(move, b.allocations, b.stock); p.moved != [] && p.stock == left && StockChecks(left)
    ensures Ship(b, k) == Committed(b')
    ensures b'.allocations == Walk(move, b.allocations, b.stock).allocations && b'.stock == left
    ensures b'.shipments == b.shipments[k := b.shipments[k].(status := ShipmentOut)] && b'.orders.Keys == b.orders.Keys
  {
    b' := Ship(b, k).value;
  }

  lemma ShipFindsNothing(b: Books, k: nat, move: Move)
    requires k < |b.shipments| && b.shipments[k].status == ShipmentPlanned && b.shipments[k].order in b.orders
    requires move == Dispatching(b.shipments[k].order, b.shipments[k].warehouse)
    requires Walk(move, b.allocations, b.stock).moved == []
    ensures Ship(b, k) == Refused(NothingReserved)
  {
  }

  lemma NoneLeft(move: Move, left: Allocation, gone: Allocation, stock: StockTable)
    requires !Eligible(move, left) && !Eligible(move, gone)
    ensures Walk(move, [left, gone], stock).moved == []
  {
    WalkHead(move, gone, [], stock);
    WalkHead(move, left, [gone], stock);
    assert [left] + [gone] == [left, gone] && [gone] + [] == [gone];
  }

  lemma BothLeave(move: Move, first: Allocation, second: Allocation, stock: StockTable) returns (none: StockTable)
    requires move == Dispatching(0, 1) && stock == map[ShelfKey(1, 0) := Stock(2, 2)]
    requires first == Allocation(0, LineId(0, 0), 1, 0, 1, 0, Reserved)
    requires second == Allocation(1, LineId(0, 0), 1, 0, 1, 0, Reserved)
    ensures none == map[ShelfKey(1, 0) := Stock(0, 0)]
    ensures var p := Walk(move, [first, second], stock);
            && p.stock == none && p.moved == [first, second]
            && p.allocations == [first.(shipped := 1, status := Shipped), second.(shipped := 1, status := Shipped)]
  {
    var one := MovedStock(move, first, stock);
    OneLeaves(first, stock, 2);
    none := MovedStock(move, second, one);
    OneLeaves(second, one, 1);
    var last := WalkTwo(move, first, second, stock, one, none);
  }

  /** A pass over two rows that both move. */
  lemma WalkTwo(move: Move, first: Allocation, second: Allocation, stock: StockTable, one: StockTable, none: StockTable)
    returns (p: Pass)
    requires one == MovedStock(move, first, stock) && none == MovedStock(move, second, one)
    requires Succeeds(move, first, stock) && Succeeds(move, second, one)
    ensures p == Walk(move, [first, second], stock)
    ensures p == Pass([MovedRow(move, first, stock), MovedRow(move, second, one)], none, [first, second])
  {
    WalkHead(move, second, [], one);
    WalkHead(move, first, [second], stock);
    assert [first] + [second] == [first, second] && [second] + [] == [second];
    p := Walk(move, [first, second], stock);
  }

  lemma WalkHead(move: Move, a: Allocation, rest: seq<Allocation>, stock: StockTable)
    ensures var tail := Walk(move, rest, MovedStock(move, a, stock));
            Walk(move, [a] + rest, stock)
              == Pass([MovedRow(move, a, stock)] + tail.allocations, tail.stock,
                      (if Succeeds(move, a, stock) then [a] else []) + tail.moved)
  {
    assert ([a] + rest)[1..] == rest;
  }

  lemma OneLeaves(a: Allocation, stock: StockTable, n: int)
    requires a.line.order == 0 && Shelf(a) == ShelfKey(1, 0) && a.status == Reserved && a.quantity == 1
             && a.shipped == 0
    requires n >= 1 && stock == map[ShelfKey(1, 0) := Stock(n, n)]
    ensures Succeeds(Dispatching(0, 1), a, stock)
    ensures MovedRow(Dispatching(0, 1), a, stock) == a.(shipped := 1, status := Shipped)
    ensures MovedStock(Dispatching(0, 1), a, stock) == map[ShelfKey(1, 0) := Stock(n - 1, n - 1)]
  {
  }
}
