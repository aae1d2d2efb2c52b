/** Cents on the invoices of shipped units.

    Unit prices are in ten-thousandths and percentages in hundredths, so a line's exact
    subtotal counts 1e-8 and its exact tax 1e-12.  Stored money is in cents, rounded half
    to even. */
module InvoiceMoney {
  import opened Numbers
  import opened Rounding
  import Scoring

  datatype Pricing = Pricing(price: int, discount: int, tax: int)

  datatype Charge = Charge(pricing: Pricing, quantity: nat)

  datatype InvoiceLine = InvoiceLine(quantity: nat, unitPrice: int, subtotal: int, tax: int, total: int)

  function Exact(p: Pricing, quantity: int): int { p.price * (FULL - p.discount) * quantity }

  function LineFor(c: Charge): InvoiceLine {
    var exact := Exact(c.pricing, c.quantity);
    InvoiceLine(c.quantity,
                HalfEven(Exact(c.pricing, 1), CENT8),
                HalfEven(exact, CENT8),
                HalfEven(exact * c.pricing.tax, CENT12),
                HalfEven(exact * FULL + exact * c.pricing.tax, CENT12))
  }

  /** The line's columns against the charge's own figures: price in ten-thousandths, discount
      and tax in hundredths of a percent. */
  predicate LineRounds(line: InvoiceLine, price: int, discount: int, tax: int, quantity: int) {
    && line.quantity == quantity
    && NearestEven(line.unitPrice, price * (10000 - discount), 1000000)
    && NearestEven(line.subtotal, price * (10000 - discount) * quantity, 1000000)
    && NearestEven(line.tax, price * (10000 - discount) * quantity * tax, 10000000000)
    && NearestEven(line.total, price * (10000 - discount) * quantity * (10000 + tax), 10000000000)
  }

  lemma LineIsRounded(c: Charge)
    ensures LineRounds(LineFor(c), c.pricing.price, c.pricing.discount, c.pricing.tax, c.quantity)
  {
    var exact := Exact(c.pricing, c.quantity);
    HalfEvenRounds(Exact(c.pricing, 1), CENT8);
    HalfEvenRounds(exact, CENT8);
    HalfEvenRounds(exact * c.pricing.tax, CENT12);
    HalfEvenRounds(exact * FULL + exact * c.pricing.tax, CENT12);
    assert exact * (10000 + c.pricing.tax) == exact * FULL + exact * c.pricing.tax;
  }

  function Subtotals(lines: seq<InvoiceLine>): int {
    if lines == [] then 0 else Subtotals(lines[..|lines| - 1]) + lines[|lines| - 1].subtotal
  }

  function Taxes(lines: seq<InvoiceLine>): int {
    if lines == [] then 0 else Taxes(lines[..|lines| - 1]) + lines[|lines| - 1].tax
  }

  function LineTotals(lines: seq<InvoiceLine>): int {
    if lines == [] then 0 else LineTotals(lines[..|lines| - 1]) + lines[|lines| - 1].total
  }

  /** Subtotal and tax, each within half a cent, miss the line total by at most a cent. */
  lemma LineWithinACent(c: Charge)
    ensures var line := LineFor(c); -1 <= line.subtotal + line.tax - line.total <= 1
  {
    var exact := Exact(c.pricing, c.quantity);
    HalfEvenIsNearest(exact, CENT8);
    HalfEvenIsNearest(exact * c.pricing.tax, CENT12);
    HalfEvenIsNearest(exact * FULL + exact * c.pricing.tax, CENT12);
  }

  /** Writes one line per charge and totals the invoice from the rounded columns: the total
      is subtotal plus tax to the cent, and at most one cent per line away from the sum of
      the line totals printed on it. */
  method WriteInvoice(charges: seq<Charge>)
    returns (lines: seq<InvoiceLine>, subtotal: int, tax: int, total: int)
    ensures |lines| == |charges| && forall i :: 0 <= i < |lines| ==> lines[i] == LineFor(charges[i])
    ensures forall i :: 0 <= i < |lines| ==>
              var p := charges[i].pricing;
              LineRounds(lines[i], p.price, p.discount, p.tax, charges[i].quantity)
    ensures subtotal == Subtotals(lines) && tax == Taxes(lines)
    ensures total == subtotal + tax
    ensures -|lines| <= total - LineTotals(lines) <= |lines|
  {
    lines := [];
    var subtotals, taxes := 0, 0;
    for i := 0 to |charges|
      invariant |lines| == i
      invariant forall k :: 0 <= k < i ==> lines[k] == LineFor(charges[k])
      invariant forall k :: 0 <= k < i ==>
          var p := charges[k].pricing;
          LineRounds(lines[k], p.price, p.discount, p.tax, charges[k].quantity)
      invariant subtotals == Subtotals(lines) && taxes == Taxes(lines)
      invariant -i <= subtotals + taxes - LineTotals(lines) <= i
    {
      var line := LineFor(charges[i]);
      LineWithinACent(charges[i]);
      LineIsRounded(charges[i]);
      assert (lines + [line])[..i] == lines;
      lines := lines + [line];
      subtotals, taxes := subtotals + line.subtotal, taxes + line.tax;
    }
    HalfEvenExact(subtotals, 1);
    HalfEvenExact(taxes, 1);
    HalfEvenExact(subtotals + taxes, 1);
    subtotal, tax, total := HalfEven(subtotals, 1), HalfEven(taxes, 1), HalfEven(subtotals + taxes, 1);
  }

  // ------------------------------------------------- billing in pieces

  function Units(pieces: seq<nat>): nat {
    if pieces == [] then 0 else pieces[0] + Units(pieces[1..])
  }

  /** What billing the pieces one at a time charges before tax. */
  function Piecewise(p: Pricing, pieces: seq<nat>): int {
    if pieces == [] then 0 else LineFor(Charge(p, pieces[0])).subtotal + Piecewise(p, pieces[1..])
  }

  lemma ExactAdds(p: Pricing, first: int, rest: int)
    ensures Exact(p, first + rest) == Exact(p, first) + Exact(p, rest)
  {
    var unit := p.price * (FULL - p.discount);
    assert unit * (first + rest) == unit * first + unit * rest;
  }

  lemma ErrorsAdd(k: nat, rounded: int, exact: int, rest: int, restExact: int)
    requires -(k * CENT8) <= 2 * (CENT8 * rest - restExact) <= k * CENT8
    requires -CENT8 <= 2 * (CENT8 * rounded - exact) <= CENT8
    ensures -((k + 1) * CENT8) <= 2 * (CENT8 * (rounded + rest) - (exact + restExact)) <= (k + 1) * CENT8
  {
  }

  lemma {:induction false} PiecesNearExact(p: Pricing, pieces: seq<nat>)
    ensures -(|pieces| * CENT8) <= 2 * (CENT8 * Piecewise(p, pieces) - Exact(p, Units(pieces))) <= |pieces| * CENT8
  {
    if pieces != [] {
      var first, rest := pieces[0], Units(pieces[1..]);
      PiecesNearExact(p, pieces[1..]);
      HalfEvenIsNearest(Exact(p, first), CENT8);
      ExactAdds(p, first, rest);
      ErrorsAdd(|pieces| - 1, LineFor(Charge(p, first)).subtotal, Exact(p, first), Piecewise(p, pieces[1..]),
          Exact(p, rest));
    }
  }

  /** Billing units in k pieces differs from billing them at once by at most (k + 1) / 2
      cents before tax. */
  lemma PiecesDifferByHalfCents(p: Pricing, pieces: seq<nat>)
    ensures var atOnce := LineFor(Charge(p, Units(pieces))).subtotal;
            -(|pieces| + 1) <= 2 * (Piecewise(p, pieces) - atOnce) <= |pieces| + 1
  {
    PiecesNearExact(p, pieces);
    HalfEvenIsNearest(Exact(p, Units(pieces)), CENT8);
  }

  lemma {:induction false} ScaleError(q: nat, slack: int)
    requires -CENT8 <= slack <= CENT8
    ensures -(CENT8 * q) <= slack * q <= CENT8 * q
  {
    if q > 0 {
      ScaleError(q - 1, slack);
      assert slack * q == slack * (q - 1) + slack;
    }
  }

  lemma ErrorsMeet(q: nat, printed: int, subtotal: int, exact: int)
    requires -(CENT8 * q) <= 2 * (CENT8 * printed - exact) <= CENT8 * q
    requires -CENT8 <= 2 * (CENT8 * subtotal - exact) <= CENT8
    ensures -(q + 1) <= 2 * (printed - subtotal) <= q + 1
  {
  }

  lemma SlackTimes(q: nat, printed: int, unit: int)
    ensures (2 * (CENT8 * printed - unit)) * q == 2 * (CENT8 * (printed * q) - unit * q)
  {
  }

  /** The printed unit price is rounded on its own: times the quantity, it misses the
      subtotal by at most (quantity + 1) / 2 cents. */
  lemma UnitPriceTimesQuantity(c: Charge)
    ensures var line := LineFor(c);
            -(c.quantity + 1) <= 2 * (line.unitPrice * c.quantity - line.subtotal) <= c.quantity + 1
  {
    var q, unit, printed := c.quantity, Exact(c.pricing, 1), LineFor(c).unitPrice;
    HalfEvenIsNearest(unit, CENT8);
    HalfEvenIsNearest(Exact(c.pricing, q), CENT8);
    ScaleError(q, 2 * (CENT8 * printed - unit));
    SlackTimes(q, printed, unit);
    ErrorsMeet(q, printed * q, LineFor(c).subtotal, unit * q);
  }

  // ------------------------------------------------------- quote to cash

  /** A quoted line, billed in any k pieces, comes within (k + 1) / 2 cents of the net the
      quotation showed for it, although the two round their ties differently. */
  lemma BilledMatchesQuoted(t: Scoring.Terms, pieces: seq<nat>)
    requires Units(pieces) == t.quantity
    ensures var quoted := HalfUp(Scoring.Net(t), CENT8);
            -(|pieces| + 1) <= 2 * (Piecewise(Pricing(t.price, t.discount, t.tax), pieces) - quoted) <= |pieces| + 1
  {
    var p := Pricing(t.price, t.discount, t.tax);
    PiecesNearExact(p, pieces);
    HalfUpIsNearest(Scoring.Net(t), CENT8);
    Reordered(t.price, FULL - t.discount, t.quantity);
  }

  /** What the pieces are charged before tax, each at the price in force when it is billed. */
  function Charged(prices: seq<Pricing>, pieces: seq<nat>): int
    requires |prices| == |pieces|
  {
    if pieces == [] then 0 else LineFor(Charge(prices[0], pieces[0])).subtotal + Charged(prices[1..], pieces[1..])
  }

  /** What those prices add, exactly, to billing every piece at `p`. */
  function Repricing(p: Pricing, prices: seq<Pricing>, pieces: seq<nat>): int
    requires |prices| == |pieces|
  {
    if pieces == [] then 0
    else Exact(prices[0], pieces[0]) - Exact(p, pieces[0]) + Repricing(p, prices[1..], pieces[1..])
  }

  lemma {:induction false} ChargedNearExact(p: Pricing, prices: seq<Pricing>, pieces: seq<nat>)
    requires |prices| == |pieces|
    ensures var exact := Exact(p, Units(pieces)) + Repricing(p, prices, pieces);
            -(|pieces| * CENT8) <= 2 * (CENT8 * Charged(prices, pieces) - exact) <= |pieces| * CENT8
  {
    if pieces != [] {
      var first, rest := pieces[0], Units(pieces[1..]);
      var restExact := Exact(p, rest) + Repricing(p, prices[1..], pieces[1..]);
      ChargedNearExact(p, prices[1..], pieces[1..]);
      HalfEvenIsNearest(Exact(prices[0], first), CENT8);
      ExactAdds(p, first, rest);
      ErrorsAdd(|pieces| - 1, LineFor(Charge(prices[0], first)).subtotal, Exact(prices[0], first),
                Charged(prices[1..], pieces[1..]), restExact);
    }
  }

  /** Whatever prices the k pieces of a quoted line are billed at, they miss the net shown by
      exactly what repricing added, give or take (k + 1) / 2 cents. */
  lemma BilledMissesByRepricing(t: Scoring.Terms, prices: seq<Pricing>, pieces: seq<nat>)
    requires Units(pieces) == t.quantity && |prices| == |pieces|
    ensures var quoted := HalfUp(Scoring.Net(t), CENT8);
            var moved := Repricing(Pricing(t.price, t.discount, t.tax), prices, pieces);
            -((|pieces| + 1) * CENT8) <= 2 * (CENT8 * (Charged(prices, pieces) - quoted) - moved)
                <= (|pieces| + 1) * CENT8
  {
    ChargedNearExact(Pricing(t.price, t.discount, t.tax), prices, pieces);
    HalfUpIsNearest(Scoring.Net(t), CENT8);
    Reordered(t.price, FULL - t.discount, t.quantity);
  }

  lemma Reordered(price: int, keep: int, quantity: int)
    ensures price * keep * quantity == price * quantity * keep
  {
  }

  // ------------------------------------------------------ tax to cash

  /** What the pieces are taxed and charged in all, one invoice line each. */
  function PieceTaxes(p: Pricing, pieces: seq<nat>): int {
    if pieces == [] then 0 else LineFor(Charge(p, pieces[0])).tax + PieceTaxes(p, pieces[1..])
  }

  function PieceTotals(p: Pricing, pieces: seq<nat>): int {
    if pieces == [] then 0 else LineFor(Charge(p, pieces[0])).total + PieceTotals(p, pieces[1..])
  }

  /** One more rounded share of a price per unit, everything scaled by `den`. */
  lemma OneMoreShare(k: nat, den: int, unit: int, first: int, rounded: int, rest: int, cents: int)
    requires -den <= 2 * (den * rounded - unit * first) <= den
    requires -(k * den) <= 2 * (den * cents - unit * rest) <= k * den
    ensures -((k + 1) * den) <= 2 * (den * (rounded + cents) - unit * (first + rest)) <= (k + 1) * den
  {
    assert den * (rounded + cents) == den * rounded + den * cents;
    assert unit * (first + rest) == unit * first + unit * rest;
    assert (k + 1) * den == k * den + den;
  }

  lemma Regrouped(price: int, keep: int, quantity: int, rate: int)
    ensures price * keep * quantity * rate == price * keep * rate * quantity
  {
    assert price * keep * quantity * rate == (price * keep) * (quantity * rate);
    assert price * keep * rate * quantity == (price * keep) * (rate * quantity);
  }

  lemma {:induction false} TaxesNearExact(p: Pricing, pieces: seq<nat>)
    ensures var unit, k := p.price * (FULL - p.discount) * p.tax, |pieces|;
            -(k * CENT12) <= 2 * (CENT12 * PieceTaxes(p, pieces) - unit * Units(pieces)) <= k * CENT12
  {
    if pieces != [] {
      var first := LineFor(Charge(p, pieces[0]));
      TaxesNearExact(p, pieces[1..]);
      LineIsRounded(Charge(p, pieces[0]));
      Regrouped(p.price, FULL - p.discount, pieces[0], p.tax);
      OneMoreShare(|pieces| - 1, CENT12, p.price * (FULL - p.discount) * p.tax, pieces[0], first.tax,
                   Units(pieces[1..]), PieceTaxes(p, pieces[1..]));
    }
  }

  lemma {:induction false} TotalsNearExact(p: Pricing, pieces: seq<nat>)
    ensures var unit, k := p.price * (FULL - p.discount) * (FULL + p.tax), |pieces|;
            -(k * CENT12) <= 2 * (CENT12 * PieceTotals(p, pieces) - unit * Units(pieces)) <= k * CENT12
  {
    if pieces != [] {
      var first := LineFor(Charge(p, pieces[0]));
      TotalsNearExact(p, pieces[1..]);
      LineIsRounded(Charge(p, pieces[0]));
      Regrouped(p.price, FULL - p.discount, pieces[0], FULL + p.tax);
      OneMoreShare(|pieces| - 1, CENT12, p.price * (FULL - p.discount) * (FULL + p.tax), pieces[0], first.total,
                   Units(pieces[1..]), PieceTotals(p, pieces[1..]));
    }
  }

  lemma Meets(k: nat, cents: int, quoted: int, exact: int)
    requires -(k * CENT12) <= 2 * (CENT12 * cents - exact) <= k * CENT12
    requires -CENT12 <= 2 * (CENT12 * quoted - exact) <= CENT12
    ensures -(k + 1) <= 2 * (cents - quoted) <= k + 1
  {
  }

  /** The taxes and the totals of the k pieces come within (k + 1) / 2 cents of the tax and
      the total the quotation showed for the line. */
  lemma BilledTaxMatchesQuoted(t: Scoring.Terms, pieces: seq<nat>)
    requires Units(pieces) == t.quantity
    ensures var p, k := Pricing(t.price, t.discount, t.tax), |pieces|;
            && -(k + 1) <= 2 * (PieceTaxes(p, pieces) - HalfUp(Scoring.Tax(t), CENT12)) <= k + 1
            && -(k + 1) <= 2 * (PieceTotals(p, pieces) - HalfUp(Scoring.Net(t) * FULL + Scoring.Tax(t), CENT12)) <= k
               + 1
  {
    var p, keep := Pricing(t.price, t.discount, t.tax), FULL - t.discount;
    TaxesNearExact(p, pieces);
    TotalsNearExact(p, pieces);
    HalfUpIsNearest(Scoring.Tax(t), CENT12);
    HalfUpIsNearest(Scoring.Net(t) * FULL + Scoring.Tax(t), CENT12);
    QuotedExact(t.price, keep, t.quantity, t.tax);
    Meets(|pieces|, PieceTaxes(p, pieces), HalfUp(Scoring.Tax(t), CENT12), t.price * keep * t.tax * t.quantity);
    Meets(|pieces|, PieceTotals(p, pieces), HalfUp(Scoring.Net(t) * FULL + Scoring.Tax(t), CENT12),
          t.price * keep * (FULL + t.tax) * t.quantity);
  }

  lemma QuotedExact(price: int, keep: int, quantity: int, tax: int)
    ensures price * quantity * keep * tax == price * keep * tax * quantity
    ensures price * quantity * keep * FULL + price * quantity * keep * tax == price * keep * (FULL + tax) * quantity
  {
    var net := price * quantity * keep;
    assert net == price * keep * quantity;
    Regrouped(price, keep, quantity, tax);
    Regrouped(price, keep, quantity, FULL + tax);
    assert net * (FULL + tax) == net * FULL + net * tax;
  }
}
