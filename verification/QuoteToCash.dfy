/** From the quoted line to the invoices of what shipped: the units the ledger bills,
    priced as the invoice service prices them. */
module QuoteToCash {
  import opened Numbers
  import opened Rounding
  import opened Ledger
  import opened LedgerInvariant
  import opened LedgerTheorems
  import InvoiceMoney
  import Scoring

  predicate BillsLine(bill: BilledLine, lines: seq<ShipmentLine>, line: LineId) {
    bill.shipmentLine < |lines| && lines[bill.shipmentLine].line == line
  }

  ghost predicate Countable(billed: seq<BilledLine>) {
    forall k :: 0 <= k < |billed| ==> billed[k].quantity >= 0
  }

  /** The quantities of an order line's one-time invoice lines, in billing order. */
  ghost function PiecesOf(billed: seq<BilledLine>, lines: seq<ShipmentLine>, line: LineId): seq<nat>
    requires Countable(billed)
  {
    if billed == [] then []
    else (if BillsLine(billed[0], lines, line) then [billed[0].quantity] else []) + PiecesOf(billed[1..], lines, line)
  }

  /** The order line's shipment lines. */
  function ShippedAs(lines: seq<ShipmentLine>, line: LineId): set<nat> {
    set j | 0 <= j < |lines| && lines[j].line == line
  }

  /** Its shipment lines with an invoice line. */
  function BilledAs(billed: seq<BilledLine>, lines: seq<ShipmentLine>, line: LineId): set<nat> {
    set bill | bill in billed && BillsLine(bill, lines, line) :: bill.shipmentLine
  }

  ghost predicate Distinct(billed: seq<BilledLine>) {
    forall k, m :: 0 <= k < m < |billed| ==> billed[k].shipmentLine != billed[m].shipmentLine
  }

  /** The pieces add up to the units billed. */
  lemma {:induction false} PiecesAddUp(billed: seq<BilledLine>, lines: seq<ShipmentLine>, line: LineId)
    requires Countable(billed)
    ensures InvoiceMoney.Units(PiecesOf(billed, lines, line)) == BilledUnits(billed, lines, line)
  {
    if billed != [] {
      PiecesAddUp(billed[1..], lines, line);
      var rest := PiecesOf(billed[1..], lines, line);
      assert ([billed[0].quantity] + rest)[1..] == rest;
      assert [] + rest == rest;
    }
  }

  lemma BilledAsStep(billed: seq<BilledLine>, lines: seq<ShipmentLine>, line: LineId)
    requires billed != [] && Distinct(billed)
    ensures var rest := BilledAs(billed[1..], lines, line);
            && billed[0].shipmentLine !in rest
            && BilledAs(billed, lines, line)
               == if BillsLine(billed[0], lines, line) then rest + {billed[0].shipmentLine} else rest
  {
    assert billed == [billed[0]] + billed[1..];
  }

  /** There is one piece for each shipment line billed. */
  lemma {:induction false} OnePieceEach(billed: seq<BilledLine>, lines: seq<ShipmentLine>, line: LineId)
    requires Countable(billed) && Distinct(billed)
    ensures |PiecesOf(billed, lines, line)| == |BilledAs(billed, lines, line)|
  {
    if billed != [] {
      OnePieceEach(billed[1..], lines, line);
      BilledAsStep(billed, lines, line);
    }
  }

  /** A counter that is behind on one shipment line is behind in the sum. */
  lemma {:induction false} BehindInSum(lines: seq<ShipmentLine>, line: LineId, j: nat)
    requires forall i :: 0 <= i < |lines| ==> 0 <= lines[i].invoiced <= lines[i].quantity
    requires j < |lines| && lines[j].line == line && lines[j].invoiced < lines[j].quantity
    ensures Invoiced(lines, line) < Dispatched(lines, line)
  {
    if j == 0 {
      InvoicedWithinDispatched(lines[1..], line);
    } else {
      BehindInSum(lines[1..], line, j - 1);
    }
  }

  /** Once every dispatched unit is billed, so is every shipment line. */
  lemma AllShippedBilled(b: Books, line: LineId)
    requires Valid(b) && Invoiced(b.shipmentLines, line) == Dispatched(b.shipmentLines, line)
    ensures BilledAs(b.billed, b.shipmentLines, line) == ShippedAs(b.shipmentLines, line)
  {
    var lines := b.shipmentLines;
    forall i | 0 <= i < |lines| ensures 0 <= lines[i].invoiced <= lines[i].quantity && 0 < lines[i].quantity {
      assert FromShipment(lines[i], b.shipments);
    }
    forall j | j in ShippedAs(lines, line) ensures j in BilledAs(b.billed, lines, line) {
      if lines[j].invoiced < lines[j].quantity { BehindInSum(lines, line, j); }
      assert IsBilled(j, b.billed);
      var k :| 0 <= k < |b.billed| && b.billed[k].shipmentLine == j;
      assert b.billed[k] in b.billed && BillsLine(b.billed[k], lines, line);
    }
  }

  lemma BillsAreCountable(b: Books)
    requires Valid(b)
    ensures Countable(b.billed) && Distinct(b.billed)
  {
    forall k | 0 <= k < |b.billed| ensures b.billed[k].quantity >= 0 {
      assert BillsInFull(b.billed[k], b.shipmentLines);
      assert FromShipment(b.shipmentLines[b.billed[k].shipmentLine], b.shipments);
    }
  }

  /** A quoted line all of whose units are billed has one invoice line per shipment line. */
  lemma {:induction false} FullyBilledPieces(warehouses: seq<Warehouse>, calls: seq<Call>, o: OrderId, p: nat)
    requires FullyBilled(Run(Opening(warehouses), calls), o, p)
    ensures var b := Run(Opening(warehouses), calls);
            && Countable(b.billed)
            && var pieces := PiecesOf(b.billed, b.shipmentLines, LineId(o, p));
               && |pieces| == |ShippedAs(b.shipmentLines, LineId(o, p))|
               && InvoiceMoney.Units(pieces) == b.orders[o].lines[p].quantity
  {
    LedgerCalls.RunKeepsValid(warehouses, calls);
    var b := Run(Opening(warehouses), calls);
    var line := LineId(o, p);
    BillsAreCountable(b);
    UnitConservation(warehouses, calls, o, p);
    BilledUnitsAreInvoiced(b.billed, b.shipmentLines, line);
    AllShippedBilled(b, line);
    PiecesAddUp(b.billed, b.shipmentLines, line);
    OnePieceEach(b.billed, b.shipmentLines, line);
  }

  predicate FullyBilled(b: Books, o: OrderId, p: nat) {
    && o in b.orders && p < |b.orders[o].lines|
    && BilledUnits(b.billed, b.shipmentLines, LineId(o, p)) == b.orders[o].lines[p].quantity
  }

  /** After any run, whatever way it was planned, shipped and invoiced, and whatever price
      each of its k invoice lines was written at: the charges of a fully billed line miss
      the net the quotation showed by exactly what the repricing of each piece added, give
      or take (k + 1) / 2 cents. */
  lemma {:induction false} FullyBilledMissesByRepricing(
      warehouses: seq<Warehouse>, calls: seq<Call>, o: OrderId, p: nat, t: Scoring.Terms,
          prices: seq<InvoiceMoney.Pricing>)
    requires var b := Run(Opening(warehouses), calls);
             && FullyBilled(b, o, p) && b.orders[o].lines[p].quantity == t.quantity
             && |prices| == |ShippedAs(b.shipmentLines, LineId(o, p))|
    ensures var b := Run(Opening(warehouses), calls);
            && Countable(b.billed)
            && var pieces := PiecesOf(b.billed, b.shipmentLines, LineId(o, p));
               && |pieces| == |prices|
               && var moved := InvoiceMoney.Repricing(InvoiceMoney.Pricing(t.price, t.discount, t.tax), prices, pieces);
                  var missed := InvoiceMoney.Charged(prices, pieces) - HalfUp(Scoring.Net(t), CENT8);
                  -((|prices| + 1) * CENT8) <= 2 * (CENT8 * missed - moved) <= (|prices| + 1) * CENT8
  {
    FullyBilledPieces(warehouses, calls, o, p);
    var b := Run(Opening(warehouses), calls);
    InvoiceMoney.BilledMissesByRepricing(t, prices, PiecesOf(b.billed, b.shipmentLines, LineId(o, p)));
  }

  /** So when no price moved between the invoices, the k charges come within (k + 1) / 2
      cents of the net shown. */
  lemma {:induction false} FullyBilledMatchesQuoted(
      warehouses: seq<Warehouse>, calls: seq<Call>, o: OrderId, p: nat, t: Scoring.Terms)
    requires var b := Run(Opening(warehouses), calls);
             FullyBilled(b, o, p) && b.orders[o].lines[p].quantity == t.quantity
    ensures var b := Run(Opening(warehouses), calls);
            && Countable(b.billed)
            && var pieces := PiecesOf(b.billed, b.shipmentLines, LineId(o, p));
               var k := |ShippedAs(b.shipmentLines, LineId(o, p))|;
               var charged := InvoiceMoney.Piecewise(InvoiceMoney.Pricing(t.price, t.discount, t.tax), pieces);
               |pieces| == k && -(k + 1) <= 2 * (charged - HalfUp(Scoring.Net(t), CENT8)) <= k + 1
  {
    FullyBilledPieces(warehouses, calls, o, p);
    var b := Run(Opening(warehouses), calls);
    InvoiceMoney.BilledMatchesQuoted(t, PiecesOf(b.billed, b.shipmentLines, LineId(o, p)));
  }

  /** And so do its taxes and its totals. */
  lemma {:induction false} FullyBilledTaxMatchesQuoted(
      warehouses: seq<Warehouse>, calls: seq<Call>, o: OrderId, p: nat, t: Scoring.Terms)
    requires var b := Run(Opening(warehouses), calls);
             FullyBilled(b, o, p) && b.orders[o].lines[p].quantity == t.quantity
    ensures var b := Run(Opening(warehouses), calls);
            && Countable(b.billed)
            && var pieces := PiecesOf(b.billed, b.shipmentLines, LineId(o, p));
               var k := |ShippedAs(b.shipmentLines, LineId(o, p))|;
               var pricing := InvoiceMoney.Pricing(t.price, t.discount, t.tax);
               var quotedTax, quotedTotal := HalfUp(Scoring.Tax(t), CENT12),
                   HalfUp(Scoring.Net(t) * FULL + Scoring.Tax(t), CENT12);
               && |pieces| == k
               && -(k + 1) <= 2 * (InvoiceMoney.PieceTaxes(pricing, pieces) - quotedTax) <= k + 1
               && -(k + 1) <= 2 * (InvoiceMoney.PieceTotals(pricing, pieces) - quotedTotal) <= k + 1
  {
    FullyBilledPieces(warehouses, calls, o, p);
    var b := Run(Opening(warehouses), calls);
    InvoiceMoney.BilledTaxMatchesQuoted(t, PiecesOf(b.billed, b.shipmentLines, LineId(o, p)));
  }
}
