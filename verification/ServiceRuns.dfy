/** Clients of the services: what whole sequences of calls on the live objects leave
    behind, read off the objects' own columns. */
module ServiceRuns {
  import opened Outcomes
  import Numbers
  import Ledger
  import LedgerCalls
  import LedgerInvariant
  import LedgerTheorems
  import LedgerWalk
  import FulfillmentDesk
  import Calendar
  import Subscriptions
  import SubscriptionTheorems
  import SubscriptionDesk
  import Governance
  import GovernanceInvariant
  import GovernanceTheorems
  import GovernanceDesk
  import PriceMatrix
  import CatalogDesk
  import Variants
  import VariantDesk

  /** Works off any calls in order.  Afterwards no shelf has promised more than it holds,
      and every line is billed for at most what left, out of exactly what was ordered. */
  method Fulfil(warehouses: seq<Ledger.Warehouse>, calls: seq<Ledger.Call>)
    returns (service: FulfillmentDesk.FulfillmentService)
    ensures fresh(service) && service.Snapshot() == Ledger.Run(Ledger.Opening(warehouses), calls)
    ensures forall key :: key in service.stock ==>
              0 <= LedgerWalk.Held(service.allocations, key) <= service.stock[key].reserved <= service.stock[key].onHand
    ensures forall o, p :: o in service.orders && 0 <= p < |service.orders[o].lines| ==>
              var line := Ledger.LineId(o, p);
              && 0 <= LedgerTheorems.BilledUnits(service.billed, service.shipmentLines, line)
                   <= LedgerWalk.UnitsOut(service.allocations, line)
                   <= LedgerWalk.Units(service.allocations, line)
  {
    service := new FulfillmentDesk.FulfillmentService(warehouses);
    for i := 0 to |calls|
      invariant fresh(service) && LedgerInvariant.Valid(service.Snapshot())
      invariant service.Snapshot() == Ledger.Run(Ledger.Opening(warehouses), calls[..i])
    {
      assert calls[..i + 1][..i] == calls[..i];
      service.Perform(calls[i]);
    }
    assert calls[..|calls|] == calls;
    forall key | key in service.stock
      ensures 0 <= LedgerWalk.Held(service.allocations, key) <= service.stock[key].reserved <= service.stock[key].onHand
    {
      LedgerTheorems.ReservationLedger(warehouses, calls, key, 0);
      LedgerWalk.HeldNonNegative(service.allocations, key);
    }
    forall o, p | o in service.orders && 0 <= p < |service.orders[o].lines|
      ensures var line := Ledger.LineId(o, p);
              && 0 <= LedgerTheorems.BilledUnits(service.billed, service.shipmentLines, line)
                   <= LedgerWalk.UnitsOut(service.allocations, line)
                   <= LedgerWalk.Units(service.allocations, line)
    {
      LedgerTheorems.UnitConservation(warehouses, calls, o, p);
    }
  }

  /** An order is invoiced twice in a row: the second time nothing is issued. */
  method InvoiceTwice(service: FulfillmentDesk.FulfillmentService, order: Ledger.OrderId)
    returns (first: Option<nat>, second: Option<nat>)
    modifies service
    ensures second == None
    ensures service.Snapshot() == Ledger.InvoiceShipped(old(service.Snapshot()), order)
  {
    LedgerCalls.SecondInvoiceIsEmpty(service.Snapshot(), order);
    first := service.Invoice(order);
    second := service.Invoice(order);
  }

  /** Opens a contract and works off any calls.  Afterwards invoices and what is still to be
      invoiced add up to the base charges and every recorded amount, and credit notes to
      every credit; the first period billed is the contract's first. */
  method Subscribe(start: Calendar.Day, interval: Calendar.Interval, quantity: int, unitPrice: int,
                   calls: seq<Subscriptions.Call>)
    returns (row: SubscriptionDesk.SubscriptionRow)
    requires quantity > 0
    ensures fresh(row)
    ensures row.Snapshot() == Subscriptions.Run(Subscriptions.Opened(start, interval, quantity, unitPrice), calls)
    ensures Subscriptions.InvoicedTotal(row.invoices) + Subscriptions.PendingAmount(row.events)
         == Subscriptions.BaseTotal(row.invoices) + Subscriptions.AllAmounts(row.events)
    ensures Numbers.Sum(row.creditNotes) == Subscriptions.CreditsIn(row.events)
    ensures row.invoices != [] ==> row.invoices[0].periodStart == start
  {
    row := new SubscriptionDesk.SubscriptionRow(start, interval, quantity, unitPrice);
    ghost var contract := row.Snapshot();
    for i := 0 to |calls|
      invariant fresh(row)
      invariant row.Snapshot() == Subscriptions.Run(contract, calls[..i])
    {
      assert calls[..i + 1][..i] == calls[..i];
      row.Perform(calls[i]);
    }
    assert calls[..|calls|] == calls;
    SubscriptionTheorems.ProrationsBilledOnce(contract, calls, 0, 0, 0);
    if row.invoices != [] {
      SubscriptionTheorems.BilledPeriodsTileTime(start, interval, quantity, unitPrice, calls, 0);
    }
  }

  /** Changes the quantity and changes it back on the same date: the next invoice owes what
      it owed before. */
  method ChangeAndBack(row: SubscriptionDesk.SubscriptionRow, quantity: int, effective: Calendar.Day)
    returns (refusal: Option<Subscriptions.Refusal>)
    requires row.quantity > 0
    modifies row
    ensures row.quantity == old(row.quantity)
    ensures Subscriptions.PendingAmount(row.events) == Subscriptions.PendingAmount(old(row.events))
    ensures refusal.Some? ==> row.Snapshot() == old(row.Snapshot())
  {
    var before := row.quantity;
    ghost var contract := row.Snapshot();
    refusal := row.Change(quantity, effective);
    if refusal.None? {
      SubscriptionTheorems.ReversalCancels(contract, quantity, effective);
      refusal := row.Change(before, effective);
    }
  }

  /** Works off calls that counter one at a time.  Afterwards the columns agree with the
      rounds: an approved or confirmed quotation has a newest round that let it pass. */
  method Negotiate(discount: nat, calls: seq<Governance.Call>) returns (service: GovernanceDesk.QuotationService)
    requires GovernanceTheorems.PoliteRun(Governance.NewDraft(discount), calls)
    ensures fresh(service) && service.Snapshot() == Governance.Run(Governance.NewDraft(discount), calls)
    ensures service.currentRound == |service.rounds|
    ensures service.status == Governance.Approved || service.status == Governance.Confirmed ==>
              service.rounds != [] &&
              var newest := service.rounds[|service.rounds| - 1].status;
              newest == Governance.RoundApproved || newest == Governance.AutoApproved
  {
    service := new GovernanceDesk.QuotationService(discount);
    for i := 0 to |calls|
      invariant fresh(service)
      invariant GovernanceTheorems.Governed(service.Snapshot()) && GovernanceInvariant.RoundsInShape(service.Snapshot())
      invariant GovernanceTheorems.PoliteRun(service.Snapshot(), calls[i..])
      invariant Governance.Run(service.Snapshot(), calls[i..]) == Governance.Run(Governance.NewDraft(discount), calls)
    {
      assert calls[i..][0] == calls[i] && calls[i..][1..] == calls[i + 1..];
      var _ := service.Perform(calls[i]);
    }
  }

  /** The stored price, in ten-thousandths, is within half of one of the exact price. */
  predicate StoredNearest(m: PriceMatrix.Matrix, k: PriceMatrix.PriceKey)
    requires k in m.prices && PriceMatrix.Live(m, k)
  {
    var exact := m.variants[k.variant].basePrice * PriceMatrix.ONE * (Numbers.FULL - m.tiers[k.tier]);
    var den := m.rates[k.code] * Numbers.FULL;
    -den <= 2 * (den * m.prices[k] - exact) <= den
  }

  /** Works off any currency, tier, variant and matrix calls.  Afterwards every stored price
      names live parts and is its formula, to the nearest ten-thousandth. */
  method Price(base: Option<PriceMatrix.Code>, calls: seq<PriceMatrix.Call>)
    returns (service: CatalogDesk.CatalogService)
    ensures fresh(service) && service.base == base
    ensures service.Snapshot() == PriceMatrix.Run(PriceMatrix.Opening(base), calls)
    ensures forall k :: k in service.prices ==>
              PriceMatrix.Live(service.Snapshot(), k) && StoredNearest(service.Snapshot(), k)
  {
    service := new CatalogDesk.CatalogService(base);
    for i := 0 to |calls|
      invariant fresh(service) && service.base == base && PriceMatrix.Valid(service.Snapshot())
      invariant PriceMatrix.Run(service.Snapshot(), calls[i..]) == PriceMatrix.Run(PriceMatrix.Opening(base), calls)
    {
      assert calls[i..][0] == calls[i] && calls[i..][1..] == calls[i + 1..];
      var _ := service.Perform(calls[i]);
    }
    ghost var m := service.Snapshot();
    forall k | k in service.prices
      ensures PriceMatrix.Live(m, k) && StoredNearest(m, k)
    {
      PriceMatrix.StoredIsNearest(m, k);
    }
  }

  /** Works off any product, attribute and generation calls.  Afterwards no SKU is used twice
      in the whole catalog, and no options or name twice in a product. */
  method Publish(calls: seq<Variants.Call>) returns (service: VariantDesk.VariantService)
    ensures fresh(service) && service.products == Variants.Run(map[], calls)
    ensures forall p, i, q, j ::
              p in service.products && q in service.products && (p != q || i != j)
              && 0 <= i < |service.products[p].rows| && 0 <= j < |service.products[q].rows| ==>
                var row, other := service.products[p].rows[i], service.products[q].rows[j];
                && row.sku != other.sku
                && (p == q ==> row.options != other.options && row.name != other.name)
  {
    service := new VariantDesk.VariantService();
    for i := 0 to |calls|
      invariant fresh(service) && Variants.CatalogValid(service.products)
      invariant Variants.Run(service.products, calls[i..]) == Variants.Run(map[], calls)
    {
      assert calls[i..][0] == calls[i] && calls[i..][1..] == calls[i + 1..];
      var _ := service.Perform(calls[i]);
    }
    forall p, i, q, j |
      p in service.products && q in service.products && (p != q || i != j)
      && 0 <= i < |service.products[p].rows| && 0 <= j < |service.products[q].rows|
      ensures var row, other := service.products[p].rows[i], service.products[q].rows[j];
              && row.sku != other.sku
              && (p == q ==> row.options != other.options && row.name != other.name)
    {
      Variants.SkusStayDistinct(calls, p, i, q, j);
    }
  }
}
