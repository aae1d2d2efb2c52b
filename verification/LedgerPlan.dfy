/** What the planner writes for an order, and what replacing a plan does to the sums. */
module LedgerPlan {
  import opened Numbers
  import opened SplitPlanner
  import opened Ledger
  import opened LedgerWalk

  // --------------------------------------------------- the availability query

  predicate InOrder(rows: seq<ShelfRow>) {
    forall i, j :: 0 <= i < j < |rows| ==> Precedes(rows[i], rows[j])
  }

  lemma {:induction false} InsertContents(row: ShelfRow, rows: seq<ShelfRow>)
    ensures multiset(InsertShelf(row, rows)) == multiset(rows) + multiset{row}
  {
    if rows != [] && !Precedes(row, rows[0]) {
      InsertContents(row, rows[1..]);
      assert rows == [rows[0]] + rows[1..];
    }
  }

  lemma {:induction false} InsertKeepsOrder(row: ShelfRow, rows: seq<ShelfRow>)
    requires InOrder(rows)
    ensures InOrder(InsertShelf(row, rows))
  {
    if rows != [] && !Precedes(row, rows[0]) {
      InsertKeepsOrder(row, rows[1..]);
      InsertContents(row, rows[1..]);
      var rest := InsertShelf(row, rows[1..]);
      forall j | 0 <= j < |rest| ensures Precedes(rows[0], rest[j]) {
        assert rest[j] in multiset(rest);
        if rest[j] != row {
          assert rest[j] in multiset(rows[1..]);
          assert rest[j] in rows[1..];
        }
      }
    }
  }

  predicate Stocked(w: Warehouse, stock: StockTable, variant: VariantId) {
    w.active && ShelfKey(w.id, variant) in stock
  }

  function ShelfOf(w: Warehouse, stock: StockTable, variant: VariantId): ShelfRow
    requires Stocked(w, stock, variant)
  {
    ShelfRow(w.id, stock[ShelfKey(w.id, variant)].Available(), w.baseCost, w.unitCost, w.nameRank)
  }

  /** A shelf the query may return. */
  ghost predicate IsShelf(row: ShelfRow, warehouses: seq<Warehouse>, stock: StockTable, variant: VariantId) {
    exists i :: 0 <= i < |warehouses| && Stocked(warehouses[i], stock, variant)
                && row == ShelfOf(warehouses[i], stock, variant)
  }

  /** One more warehouse adds its shelf, if it has one, and moves nothing else out. */
  lemma StockForStep(warehouses: seq<Warehouse>, stock: StockTable, variant: VariantId)
    requires warehouses != []
    ensures var rest := StockFor(warehouses[1..], stock, variant);
            multiset(StockFor(warehouses, stock, variant))
              == if Stocked(warehouses[0], stock, variant)
                 then multiset(rest) + multiset{ShelfOf(warehouses[0], stock, variant)}
                 else multiset(rest)
  {
    if Stocked(warehouses[0], stock, variant) {
      InsertContents(ShelfOf(warehouses[0], stock, variant), StockFor(warehouses[1..], stock, variant));
    }
  }

  lemma {:induction false} StockForOrdered(warehouses: seq<Warehouse>, stock: StockTable, variant: VariantId)
    ensures InOrder(StockFor(warehouses, stock, variant))
  {
    if warehouses != [] {
      StockForOrdered(warehouses[1..], stock, variant);
      if Stocked(warehouses[0], stock, variant) {
        InsertKeepsOrder(ShelfOf(warehouses[0], stock, variant), StockFor(warehouses[1..], stock, variant));
      }
    }
  }

  lemma {:induction false} StockForSound(
      warehouses: seq<Warehouse>, stock: StockTable, variant: VariantId, row: ShelfRow)
    requires row in multiset(StockFor(warehouses, stock, variant))
    ensures IsShelf(row, warehouses, stock, variant)
  {
    if warehouses != [] {
      StockForStep(warehouses, stock, variant);
      if row in multiset(StockFor(warehouses[1..], stock, variant)) {
        StockForSound(warehouses[1..], stock, variant, row);
        var i :| 0 <= i < |warehouses[1..]| && Stocked(warehouses[1..][i], stock, variant)
                 && row == ShelfOf(warehouses[1..][i], stock, variant);
        assert warehouses[i + 1] == warehouses[1..][i];
      } else {
        assert row == ShelfOf(warehouses[0], stock, variant);
      }
    }
  }

  lemma {:induction false} StockForComplete(warehouses: seq<Warehouse>, stock: StockTable, variant: VariantId, i: nat)
    requires i < |warehouses| && Stocked(warehouses[i], stock, variant)
    ensures ShelfOf(warehouses[i], stock, variant) in multiset(StockFor(warehouses, stock, variant))
  {
    StockForStep(warehouses, stock, variant);
    if i > 0 { StockForComplete(warehouses[1..], stock, variant, i - 1); }
  }

  /** The listing is sorted as the query asks, holds only active stocked shelves, and
      misses none of them. */
  lemma StockForIsTheQuery(warehouses: seq<Warehouse>, stock: StockTable, variant: VariantId)
    ensures var rows := StockFor(warehouses, stock, variant);
            && InOrder(rows)
            && (forall row :: row in multiset(rows) ==> IsShelf(row, warehouses, stock, variant))
            && (forall i :: 0 <= i < |warehouses| && Stocked(warehouses[i], stock, variant) ==>
                  ShelfOf(warehouses[i], stock, variant) in multiset(rows))
  {
    var rows := StockFor(warehouses, stock, variant);
    StockForOrdered(warehouses, stock, variant);
    forall row | row in multiset(rows) ensures IsShelf(row, warehouses, stock, variant) {
      StockForSound(warehouses, stock, variant, row);
    }
    forall i | 0 <= i < |warehouses| && Stocked(warehouses[i], stock, variant)
      ensures ShelfOf(warehouses[i], stock, variant) in multiset(rows)
    {
      StockForComplete(warehouses, stock, variant, i);
    }
  }

  /** A backorder is booked against a cheapest active warehouse, if any is active. */
  lemma {:induction false} DefaultIsCheapest(warehouses: seq<Warehouse>)
    ensures match DefaultWarehouse(warehouses)
            case Some(w) =>
              && w.active && w in warehouses
              && forall v :: v in warehouses && v.active ==> w.baseCost <= v.baseCost
            case None => forall v :: v in warehouses ==> !v.active
  {
    if warehouses != [] {
      DefaultIsCheapest(warehouses[1..]);
      assert warehouses == [warehouses[0]] + warehouses[1..];
    }
  }

  lemma DepthsAreShelves(warehouses: seq<Warehouse>, stock: StockTable, variant: VariantId)
    requires StockChecks(stock)
    ensures var depths := Depths(StockFor(warehouses, stock, variant)); DeepestFirst(depths) && NonNegative(depths)
  {
    StockForIsTheQuery(warehouses, stock, variant);
    var rows := StockFor(warehouses, stock, variant);
    forall i | 0 <= i < |rows| ensures rows[i].available >= 0 {
      assert rows[i] in multiset(rows);
    }
    forall i, j | 0 <= i < j < |rows| ensures rows[i].available >= rows[j].available {
      assert Precedes(rows[i], rows[j]);
    }
  }

  // ----------------------------------------------------------- one planned line

  /** A fresh planned or backordered row of this line. */
  predicate FreshRow(a: Allocation, id: LineId, variant: VariantId) {
    a.line == id && a.variant == variant && a.quantity > 0 && a.shipped == 0 &&
    (a.status == Planned || a.status == Backordered)
  }

  /** The row draws what one listed shelf gives. */
  predicate FromShelf(a: Allocation, shelves: seq<ShelfRow>, takes: seq<int>)
    requires |shelves| == |takes|
  {
    exists k :: 0 <= k < |shelves| && a.warehouse == shelves[k].warehouse && a.quantity == takes[k]
  }

  lemma {:induction false} PlannedRowsAre(
      id: LineId, variant: VariantId, shelves: seq<ShelfRow>, takes: seq<int>, next: nat)
    requires |shelves| == |takes| && NonNegative(takes)
    ensures var rows := PlannedRows(id, variant, shelves, takes, next);
            && (forall i :: 0 <= i < |rows| ==>
               FreshRow(rows[i], id, variant) && rows[i].status == Planned && rows[i].id == next + i)
            && Units(rows, id) == Sum(takes)
            && |rows| == Touched(takes)
            && (forall i :: 0 <= i < |rows| ==> FromShelf(rows[i], shelves, takes))
  {
    if shelves != [] {
      var rows := PlannedRows(id, variant, shelves, takes, next);
      if takes[0] <= 0 {
        assert takes[0] == 0;
        PlannedRowsAre(id, variant, shelves[1..], takes[1..], next);
        forall i | 0 <= i < |rows|
          ensures FromShelf(rows[i], shelves, takes)
        {
          var k :| 0 <= k < |shelves[1..]| && rows[i].warehouse == shelves[1..][k].warehouse
              && rows[i].quantity == takes[1..][k];
          assert shelves[k + 1] == shelves[1..][k] && takes[k + 1] == takes[1..][k];
        }
      } else {
        PlannedRowsAre(id, variant, shelves[1..], takes[1..], next + 1);
        var rest := PlannedRows(id, variant, shelves[1..], takes[1..], next + 1);
        assert rows[1..] == rest;
        forall i | 0 <= i < |rows|
          ensures FromShelf(rows[i], shelves, takes)
          ensures FreshRow(rows[i], id, variant) && rows[i].status == Planned && rows[i].id == next + i
        {
          if i > 0 {
            assert rows[i] == rest[i - 1];
            var k :| 0 <= k < |shelves[1..]| && rest[i - 1].warehouse == shelves[1..][k].warehouse
                && rest[i - 1].quantity == takes[1..][k];
            assert shelves[k + 1] == shelves[1..][k] && takes[k + 1] == takes[1..][k];
          } else {
            assert rows[0].warehouse == shelves[0].warehouse;
          }
        }
      }
    }
  }

  /** Once nothing is wanted, no further shelf gives anything. */
  lemma {:induction false} NoMoreTakes(id: LineId, variant: VariantId, shelves: seq<ShelfRow>, wanted: int, next: nat)
    requires wanted <= 0
    ensures |Takes(Depths(shelves), wanted)| == |shelves|
    ensures PlannedRows(id, variant, shelves, Takes(Depths(shelves), wanted), next) == []
    ensures Sum(Takes(Depths(shelves), wanted)) == 0
  {
    TakesLength(Depths(shelves), wanted);
    if shelves != [] {
      assert Depths(shelves)[1..] == Depths(shelves[1..]);
      assert Takes(Depths(shelves), wanted)[1..] == Takes(Depths(shelves[1..]), wanted);
      NoMoreTakes(id, variant, shelves[1..], wanted, next);
    }
  }

  lemma {:induction false} UnitsConcat(a: seq<Allocation>, b: seq<Allocation>, line: LineId)
    ensures Units(a + b, line) == Units(a, line) + Units(b, line)
    ensures UnitsOut(a + b, line) == UnitsOut(a, line) + UnitsOut(b, line)
  {
    if a == [] {
      assert a + b == b;
    } else {
      UnitsConcat(a[1..], b, line);
      assert (a + b)[1..] == a[1..] + b;
    }
  }

  /** No planned row draws more than its shelf has free. */
  lemma PlannedWithinShelves(
      warehouses: seq<Warehouse>, stock: StockTable, id: LineId, variant: VariantId, wanted: int, next: nat)
    requires StockChecks(stock) && wanted >= 0
    ensures var shelves := StockFor(warehouses, stock, variant);
            var takes := Takes(Depths(shelves), wanted);
            |takes| == |shelves| &&
            forall i :: 0 <= i < |PlannedRows(id, variant, shelves, takes, next)| ==>
              PlannedRows(id, variant, shelves, takes, next)[i].quantity
                <= AvailableAt(stock, Shelf(PlannedRows(id, variant, shelves, takes, next)[i]))
  {
    var shelves := StockFor(warehouses, stock, variant);
    DepthsAreShelves(warehouses, stock, variant);
    TakesIsDraw(Depths(shelves), wanted);
    var takes := Takes(Depths(shelves), wanted);
    PlannedRowsAre(id, variant, shelves, takes, next);
    StockForIsTheQuery(warehouses, stock, variant);
    var planned := PlannedRows(id, variant, shelves, takes, next);
    forall i | 0 <= i < |planned| ensures planned[i].quantity <= AvailableAt(stock, Shelf(planned[i])) {
      assert FromShelf(planned[i], shelves, takes);
      var k :| 0 <= k < |shelves| && planned[i].warehouse == shelves[k].warehouse && planned[i].quantity == takes[k];
      assert shelves[k] in multiset(shelves);
      assert IsShelf(shelves[k], warehouses, stock, variant);
      assert takes[k] <= Depths(shelves)[k];
      assert FreshRow(planned[i], id, variant);
    }
  }

  /** Optimality and exactness of one planned line.  Its first `k` rows draw
      min(quantity, total available) and never more from a shelf than it has free; the
      exact remainder is one backorder; and no other draw of as many units touches
      fewer than `k` warehouses. */
  lemma PlanLineIsBest(b: Books, id: LineId, line: OrderLine, next: nat, other: seq<int>) returns (k: nat)
    requires StockChecks(b.stock) && Physical(line) && line.quantity > 0
    requires PlanLine(b, id, line, next).Some?
    requires IsDraw(Depths(StockFor(b.warehouses, b.stock, line.variant.value)), other,
                    Min(line.quantity, Sum(Depths(StockFor(b.warehouses, b.stock, line.variant.value)))))
    ensures var rows := PlanLine(b, id, line, next).value;
            var total := Sum(Depths(StockFor(b.warehouses, b.stock, line.variant.value)));
            && k <= |rows| && k <= Touched(other)
            && (forall i :: 0 <= i < k ==>
                  (rows[i].status == Planned && rows[i].quantity <= AvailableAt(b.stock, Shelf(rows[i]))))
            && Units(rows[..k], id) == Min(line.quantity, total)
            && (if line.quantity <= total then k == |rows|
                else |rows| == k + 1 && rows[k].status == Backordered && rows[k].quantity == line.quantity - total)
  {
    var variant := line.variant.value;
    var shelves := StockFor(b.warehouses, b.stock, variant);
    var takes := Takes(Depths(shelves), line.quantity);
    DepthsAreShelves(b.warehouses, b.stock, variant);
    TakesIsDraw(Depths(shelves), line.quantity);
    GreedyTouchesFewest(Depths(shelves), line.quantity, other);
    PlannedRowsAre(id, variant, shelves, takes, next);
    PlannedWithinShelves(b.warehouses, b.stock, id, variant, line.quantity, next);
    var planned := PlannedRows(id, variant, shelves, takes, next);
    k := |planned|;
    assert PlanLine(b, id, line, next).value[..k] == planned;
  }

  /** A planned line in two parts: the greedy draws, and the remainder if there is one. */
  lemma PlanLineParts(b: Books, id: LineId, line: OrderLine, next: nat)
    returns (planned: seq<Allocation>, rest: seq<Allocation>)
    requires StockChecks(b.stock) && Physical(line) && line.quantity > 0
    requires PlanLine(b, id, line, next).Some?
    ensures PlanLine(b, id, line, next).value == planned + rest
    ensures forall i :: 0 <= i < |planned| ==> FreshRow(planned[i], id, line.variant.value) && planned[i].id == next + i
    ensures rest == [] || (|rest| == 1 && FreshRow(rest[0], id, line.variant.value) && rest[0].id == next + |planned|)
    ensures Units(planned, id) + Units(rest, id) == line.quantity
  {
    var variant := line.variant.value;
    var shelves := StockFor(b.warehouses, b.stock, variant);
    var takes := Takes(Depths(shelves), line.quantity);
    DepthsAreShelves(b.warehouses, b.stock, variant);
    TakesIsDraw(Depths(shelves), line.quantity);
    PlannedRowsAre(id, variant, shelves, takes, next);
    planned := PlannedRows(id, variant, shelves, takes, next);
    rest := PlanLine(b, id, line, next).value[|planned|..];
  }

  lemma PlanLineCovers(b: Books, id: LineId, line: OrderLine, next: nat)
    requires StockChecks(b.stock) && line.quantity > 0
    requires PlanLine(b, id, line, next).Some?
    ensures var rows := PlanLine(b, id, line, next).value;
            && (forall i :: 0 <= i < |rows| ==>
               Physical(line) && FreshRow(rows[i], id, line.variant.value) && rows[i].id == next + i)
            && Units(rows, id) == if Physical(line) then line.quantity else 0
  {
    if Physical(line) {
      var planned, rest := PlanLineParts(b, id, line, next);
      UnitsConcat(planned, rest, id);
    }
  }

  // ------------------------------------------------------------ the whole plan

  ghost predicate LinesPositive(lines: seq<OrderLine>) {
    forall p :: 0 <= p < |lines| ==> lines[p].quantity > 0
  }

  /** A row written for this order by the planner or by hand. */
  predicate NewRow(a: Allocation, order: OrderId, lines: seq<OrderLine>) {
    && a.line.order == order && a.line.position < |lines|
    && lines[a.line.position].variant.Some? && !lines[a.line.position].recurring
    && FreshRow(a, a.line, lines[a.line.position].variant.value)
  }

  lemma {:induction false} NoUnitsElsewhere(rows: seq<Allocation>, line: LineId)
    requires forall i :: 0 <= i < |rows| ==> rows[i].line != line
    ensures Units(rows, line) == 0 && UnitsOut(rows, line) == 0
  {
    if rows != [] { NoUnitsElsewhere(rows[1..], line); }
  }

  /** The plan allocates every remaining line in full and nothing else. */
  lemma {:induction false} PlanFromCovers(b: Books, order: OrderId, lines: seq<OrderLine>, position: nat, next: nat)
    requires StockChecks(b.stock) && LinesPositive(lines) && position <= |lines|
    requires PlanFrom(b, order, lines, position, next).Some?
    ensures var rows := PlanFrom(b, order, lines, position, next).value;
            && (forall i :: 0 <= i < |rows| ==>
                  NewRow(rows[i], order, lines) && rows[i].line.position >= position && rows[i].id == next + i)
            && (forall p :: position <= p < |lines| ==>
                  Units(rows, LineId(order, p)) == if Physical(lines[p]) then lines[p].quantity else 0)
    decreases |lines| - position
  {
    if position < |lines| {
      var id := LineId(order, position);
      var here := PlanLine(b, id, lines[position], next).value;
      PlanLineCovers(b, id, lines[position], next);
      PlanFromCovers(b, order, lines, position + 1, next + |here|);
      var rest := PlanFrom(b, order, lines, position + 1, next + |here|).value;
      forall p | position <= p < |lines|
        ensures Units(here + rest, LineId(order, p)) == if Physical(lines[p]) then lines[p].quantity else 0
      {
        UnitsConcat(here, rest, LineId(order, p));
        if p == position { NoUnitsElsewhere(rest, id); } else { NoUnitsElsewhere(here, LineId(order, p)); }
      }
    }
  }

  // -------------------------------------------------------- the override's rows

  lemma {:induction false} OverrideUnits(
      order: OrderId, lines: seq<OrderLine>, rows: seq<OverrideRow>, next: nat, p: nat)
    requires forall i :: 0 <= i < |rows| ==> rows[i].position < |lines| && lines[rows[i].position].variant.Some?
    ensures Units(OverrideRowsFrom(order, lines, rows, next), LineId(order, p)) == Supplied(rows, p)
  {
    if rows != [] {
      OverrideUnits(order, lines, rows[1..], next + 1, p);
      var all := OverrideRowsFrom(order, lines, rows, next);
      assert all[1..] == OverrideRowsFrom(order, lines, rows[1..], next + 1);
    }
  }

  // ------------------------------------------------------------ replacing a plan

  ghost predicate DistinctIds(rows: seq<Allocation>) {
    forall i, j :: 0 <= i < j < |rows| ==> rows[i].id != rows[j].id
  }

  lemma {:induction false} WithoutKeeps(rows: seq<Allocation>, order: OrderId)
    ensures forall a :: a in Without(rows, order) <==> a in rows && a.line.order != order
    ensures DistinctIds(rows) ==> DistinctIds(Without(rows, order))
  {
    if rows != [] {
      WithoutKeeps(rows[1..], order);
      var kept, tail := Without(rows, order), Without(rows[1..], order);
      if DistinctIds(rows) && rows[0].line.order != order {
        forall j | 0 <= j < |tail| ensures rows[0].id != tail[j].id {
          assert tail[j] in Without(rows[1..], order);
          assert tail[j] in rows[1..];
        }
      }
    }
  }

  lemma {:induction false} WithoutUnits(rows: seq<Allocation>, order: OrderId, line: LineId)
    ensures Units(Without(rows, order), line) == if line.order == order then 0 else Units(rows, line)
    ensures UnitsOut(Without(rows, order), line) == if line.order == order then 0 else UnitsOut(rows, line)
  {
    if rows != [] {
      WithoutUnits(rows[1..], order, line);
      if rows[0].line.order != order {
        assert Without(rows, order)[1..] == Without(rows[1..], order);
      }
    }
  }

  /** Units the order's reserved rows hold on a shelf. */
  function HeldFor(rows: seq<Allocation>, order: OrderId, key: ShelfKey): int {
    if rows == [] then 0
    else (if rows[0].line.order == order then HeldBy(rows[0], key) else 0) + HeldFor(rows[1..], order, key)
  }

  lemma {:induction false} WithoutHeld(rows: seq<Allocation>, order: OrderId, key: ShelfKey)
    requires AllSound(rows)
    ensures Held(Without(rows, order), key) == Held(rows, key) - HeldFor(rows, order, key)
    ensures HeldFor(rows, order, key) >= 0
  {
    if rows != [] {
      assert Sound(rows[0]);
      WithoutHeld(rows[1..], order, key);
      if rows[0].line.order != order {
        assert Without(rows, order)[1..] == Without(rows[1..], order);
      }
    }
  }

  lemma {:induction false} HeldConcat(a: seq<Allocation>, b: seq<Allocation>, key: ShelfKey)
    ensures Held(a + b, key) == Held(a, key) + Held(b, key)
  {
    if a == [] {
      assert a + b == b;
    } else {
      HeldConcat(a[1..], b, key);
      assert (a + b)[1..] == a[1..] + b;
    }
  }

  lemma {:induction false} NewRowsHoldNothing(rows: seq<Allocation>, key: ShelfKey)
    requires forall i :: 0 <= i < |rows| ==> rows[i].status == Planned || rows[i].status == Backordered
    ensures Held(rows, key) == 0
  {
    if rows != [] { NewRowsHoldNothing(rows[1..], key); }
  }
}
