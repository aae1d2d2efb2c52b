/** What one pass over the allocations keeps, whichever of the three calls makes it. */
module LedgerWalk {
  import opened Ledger

  /** Units a reserved row still holds on a shelf. */
  function HeldBy(a: Allocation, key: ShelfKey): int {
    if a.status == Reserved && Shelf(a) == key then Outstanding(a) else 0
  }

  function Held(rows: seq<Allocation>, key: ShelfKey): int {
    if rows == [] then 0 else HeldBy(rows[0], key) + Held(rows[1..], key)
  }

  /** Units allocated to an order line. */
  function Units(rows: seq<Allocation>, line: LineId): int {
    if rows == [] then 0 else (if rows[0].line == line then rows[0].quantity else 0) + Units(rows[1..], line)
  }

  /** Units of an order line that have left, by the allocations' own count. */
  function UnitsOut(rows: seq<Allocation>, line: LineId): int {
    if rows == [] then 0 else (if rows[0].line == line then rows[0].shipped else 0) + UnitsOut(rows[1..], line)
  }

  function UnitsLeft(rows: seq<Allocation>, line: LineId): int {
    if rows == [] then 0 else (if rows[0].line == line then Outstanding(rows[0]) else 0) + UnitsLeft(rows[1..], line)
  }

  /** Every allocation ships whole or not at all. */
  predicate Sound(a: Allocation) {
    && a.quantity > 0
    && (a.status == Planned || a.status == Reserved || a.status == Backordered || a.status == Shipped)
    && a.shipped == if a.status == Shipped then a.quantity else 0
  }

  ghost predicate AllSound(rows: seq<Allocation>) {
    forall i :: 0 <= i < |rows| ==> Sound(rows[i])
  }

  ghost predicate WithinReserved(rows: seq<Allocation>, stock: StockTable) {
    forall key :: Held(rows, key) <= ReservedAt(stock, key)
  }

  predicate SameRow(a: Allocation, a': Allocation) {
    a'.id == a.id && a'.line == a.line && a'.warehouse == a.warehouse &&
    a'.variant == a.variant && a'.quantity == a.quantity
  }

  /** What a move may make of one row. */
  predicate Follows(move: Move, a: Allocation, a': Allocation) {
    if !Eligible(move, a) then a' == a
    else
      match move
      case Accepting(_) => a' == a.(status := Reserved) || a' == a.(status := Backordered)
      case Dispatching(_, _) => a' == a.(shipped := a.quantity, status := Shipped)
      case Sweeping => a' == a.(status := Reserved) || a' == a
  }

  /** Row by row: only eligible rows change, each to what the move allows, and `moved`
      names exactly the rows that were reserved or shipped. */
  lemma {:induction false} WalkRows(move: Move, rows: seq<Allocation>, stock: StockTable)
    ensures var p := Walk(move, rows, stock);
            && |p.allocations| == |rows|
            && (forall i :: 0 <= i < |rows| ==> SameRow(rows[i], p.allocations[i]))
            && (forall i :: 0 <= i < |rows| ==> Follows(move, rows[i], p.allocations[i]))
            && (forall i :: 0 <= i < |rows| ==>
                  (p.allocations[i] != rows[i] && p.allocations[i].status != Backordered ==> rows[i] in p.moved))
            && (forall a :: a in p.moved ==> a in rows && Eligible(move, a))
  {
    if rows != [] {
      var a := rows[0];
      WalkRows(move, rows[1..], MovedStock(move, a, stock));
      var rest := Walk(move, rows[1..], MovedStock(move, a, stock));
      var p := Walk(move, rows, stock);
      forall i | 0 <= i < |rows|
        ensures SameRow(rows[i], p.allocations[i]) && Follows(move, rows[i], p.allocations[i])
        ensures p.allocations[i] != rows[i] && p.allocations[i].status != Backordered ==> rows[i] in p.moved
      {
        if i > 0 {
          assert rows[i] == rows[1..][i - 1] && p.allocations[i] == rest.allocations[i - 1];
        }
      }
    }
  }

  lemma {:induction false} HeldNonNegative(rows: seq<Allocation>, key: ShelfKey)
    requires AllSound(rows)
    ensures Held(rows, key) >= 0
  {
    if rows != [] {
      assert Sound(rows[0]);
      HeldNonNegative(rows[1..], key);
    }
  }

  /** One step of a pass: what the row's hold gains, the shelf's reserved count gains;
      a dispatch takes the same units off hand, every other move leaves on-hand alone. */
  lemma StepBalances(move: Move, rows: seq<Allocation>, stock: StockTable)
    requires rows != [] && AllSound(rows) && StockChecks(stock) && WithinReserved(rows, stock)
    ensures var a, stock' := rows[0], MovedStock(move, rows[0], stock);
            && stock'.Keys == stock.Keys
            && StockChecks(stock')
            && (forall key :: ReservedAt(stock', key) - ReservedAt(stock, key)
                  == HeldBy(MovedRow(move, a, stock), key) - HeldBy(a, key))
            && (forall key :: key in stock ==>
                  stock'[key].onHand - stock[key].onHand
                    == if move.Dispatching? then stock'[key].reserved - stock[key].reserved else 0)
  {
    var a := rows[0];
    assert Sound(a);
    HeldNonNegative(rows[1..], Shelf(a));
    assert Held(rows, Shelf(a)) <= ReservedAt(stock, Shelf(a));
    assert HeldBy(a, Shelf(a)) <= ReservedAt(stock, Shelf(a));
  }

  /** The reservation ledger across a whole pass. */
  lemma {:induction false} WalkBalances(move: Move, rows: seq<Allocation>, stock: StockTable)
    requires AllSound(rows) && StockChecks(stock) && WithinReserved(rows, stock)
    ensures var p := Walk(move, rows, stock);
            && p.stock.Keys == stock.Keys
            && StockChecks(p.stock)
            && (forall key :: ReservedAt(p.stock, key) - ReservedAt(stock, key)
                  == Held(p.allocations, key) - Held(rows, key))
            && (forall key :: key in stock ==>
                  p.stock[key].onHand - stock[key].onHand
                    == if move.Dispatching? then p.stock[key].reserved - stock[key].reserved else 0)
  {
    if rows != [] {
      var stock' := MovedStock(move, rows[0], stock);
      StepBalances(move, rows, stock);
      forall key ensures Held(rows[1..], key) <= ReservedAt(stock', key) {
        assert Held(rows, key) <= ReservedAt(stock, key);
        assert Sound(rows[0]);
        assert HeldBy(MovedRow(move, rows[0], stock), key) >= 0;
      }
      WalkBalances(move, rows[1..], stock');
      var p, rest := Walk(move, rows, stock), Walk(move, rows[1..], stock');
      assert p.allocations[1..] == rest.allocations;
    }
  }

  /** Rows that agree on line and quantity allocate the same units. */
  lemma {:induction false} UnitsSame(rows: seq<Allocation>, rows': seq<Allocation>, line: LineId)
    requires |rows| == |rows'|
    requires forall i :: 0 <= i < |rows| ==> SameRow(rows[i], rows'[i])
    ensures Units(rows, line) == Units(rows', line)
  {
    if rows != [] {
      assert SameRow(rows[0], rows'[0]);
      UnitsSame(rows[1..], rows'[1..], line);
    }
  }

  /** Only a dispatch moves shipped units, by exactly the outstanding units of `moved`. */
  lemma {:induction false} WalkShips(move: Move, rows: seq<Allocation>, stock: StockTable, line: LineId)
    ensures var p := Walk(move, rows, stock);
            UnitsOut(p.allocations, line)
              == UnitsOut(rows, line) + if move.Dispatching? then UnitsLeft(p.moved, line) else 0
  {
    if rows != [] {
      var a := rows[0];
      var stock' := MovedStock(move, a, stock);
      WalkShips(move, rows[1..], stock', line);
      var p, rest := Walk(move, rows, stock), Walk(move, rows[1..], stock');
      assert p.allocations[1..] == rest.allocations;
      if Succeeds(move, a, stock) {
        assert p.moved == [a] + rest.moved && p.moved[1..] == rest.moved;
      } else {
        assert p.moved == rest.moved;
      }
    }
  }

  // ------------------------------------------- reserving all that can be

  /** Reserving never frees anything. */
  lemma {:induction false} ReservingOnlyUses(move: Move, rows: seq<Allocation>, stock: StockTable, key: ShelfKey)
    requires AllSound(rows) && !move.Dispatching?
    ensures var p := Walk(move, rows, stock);
            p.stock.Keys == stock.Keys && AvailableAt(p.stock, key) <= AvailableAt(stock, key)
  {
    if rows != [] {
      assert Sound(rows[0]);
      ReservingOnlyUses(move, rows[1..], MovedStock(move, rows[0], stock), key);
    }
  }

  ghost predicate NoneCoverable(rows: seq<Allocation>, stock: StockTable) {
    forall i :: 0 <= i < |rows| && rows[i].status == Backordered ==> !Covered(rows[i], stock)
  }

  /** After a sweep every row still backordered exceeds what its shelf has free. */
  lemma {:induction false} SweepIsMaximal(rows: seq<Allocation>, stock: StockTable)
    requires AllSound(rows)
    ensures var p := Walk(Sweeping, rows, stock); NoneCoverable(p.allocations, p.stock)
  {
    if rows != [] {
      var a := rows[0];
      assert Sound(a);
      var stock' := MovedStock(Sweeping, a, stock);
      SweepIsMaximal(rows[1..], stock');
      var p, rest := Walk(Sweeping, rows, stock), Walk(Sweeping, rows[1..], stock');
      WalkRows(Sweeping, rows, stock);
      WalkRows(Sweeping, rows[1..], stock');
      ReservingOnlyUses(Sweeping, rows[1..], stock', Shelf(a));
      forall i | 0 <= i < |rows| && p.allocations[i].status == Backordered
        ensures !Covered(p.allocations[i], p.stock)
      {
        if i > 0 { assert p.allocations[i] == rest.allocations[i - 1]; }
      }
    }
  }

  lemma {:induction false} SweepStops(rows: seq<Allocation>, stock: StockTable)
    requires NoneCoverable(rows, stock)
    ensures Walk(Sweeping, rows, stock) == Pass(rows, stock, [])
  {
    if rows != [] {
      assert rows[0].status == Backordered ==> !Covered(rows[0], stock);
      assert NoneCoverable(rows[1..], stock);
      SweepStops(rows[1..], stock);
      assert [rows[0]] + rows[1..] == rows;
    }
  }

  /** Reserved, or backordered and still more than what its shelf has free. */
  predicate Settled(a: Allocation, stock: StockTable) {
    a.status == Reserved || (a.status == Backordered && !Covered(a, stock))
  }

  /** Accepting settles every planned row of its order: it backorders none it could hold. */
  lemma {:induction false} AcceptIsMaximal(order: OrderId, rows: seq<Allocation>, stock: StockTable, i: nat)
    requires AllSound(rows) && i < |rows| && Eligible(Accepting(order), rows[i])
    ensures var p := Walk(Accepting(order), rows, stock);
            i < |p.allocations| && Settled(p.allocations[i], p.stock)
  {
    var move, a := Accepting(order), rows[0];
    var stock' := MovedStock(move, a, stock);
    var p, rest := Walk(move, rows, stock), Walk(move, rows[1..], stock');
    if i == 0 {
      ReservingOnlyUses(move, rows[1..], stock', Shelf(a));
    } else {
      AcceptIsMaximal(order, rows[1..], stock', i - 1);
      assert p.allocations[i] == rest.allocations[i - 1];
    }
  }
}
