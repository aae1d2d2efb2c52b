/** What each call on the price table writes, said in the figures typed. */
module CatalogEffects {
  import opened Outcomes
  import opened Numbers
  import opened Rounding
  import opened PriceMatrix

  // --------------------------------------------------------------- a price

  /** The stored ten-thousandths: base price less the tier's percentage, over the rate in
      millionths, rounded half up. */
  predicate PriceWritten(price: int, basePrice: int, percent: int, rate: int) {
    NearestAwayFromZero(price, basePrice * (10000 - percent) * 1000000, rate * 10000)
  }

  lemma PriceRounds(m: Matrix, k: PriceKey)
    requires HasBase(m) && Live(m, k) && m.rates[m.base.value] == ONE
    ensures PriceWritten(PriceOf(m, k), m.variants[k.variant].basePrice, m.tiers[k.tier], m.rates[k.code])
  {
    var price, keep, rate := m.variants[k.variant].basePrice, FULL - m.tiers[k.tier], m.rates[k.code];
    if k.code == m.base.value {
      HalfUpRounds(price * keep, FULL);
      ScaledRounds(PriceOf(m, k), price * keep, FULL);
    } else {
      HalfUpRounds(price * ONE * keep, rate * FULL);
      assert price * ONE * keep == price * keep * 1000000;
    }
  }

  lemma ScaledRounds(r: int, num: int, den: int)
    requires den > 0 && NearestAwayFromZero(r, num, den)
    ensures NearestAwayFromZero(r, num * 1000000, 1000000 * den)
  {
    assert 1000000 * den * r == 1000000 * (den * r);
  }

  // ------------------------------------------------------------- a rebuild

  ghost predicate CanPrice(m: Matrix, ids: set<VariantId>) {
    HasBase(m) && m.tiers != map[] && exists v :: v in ids && v in m.variants
  }

  /** The rows of these variants are the live cells, each at its price, and no others; the
      rest of the table is as it was, as it all is where there is nothing to price. */
  ghost predicate PricedAnew(before: map<PriceKey, int>, m: Matrix, ids: set<VariantId>) {
    if !CanPrice(m, ids) then m.prices == before
    else forall k: PriceKey :: if k.variant in ids && k.variant in m.variants
                     then (k in m.prices <==> Live(m, k)) && (k in m.prices ==> RowPriced(m, k))
                     else SameRow(before, m.prices, k)
  }

  predicate RowPriced(m: Matrix, k: PriceKey)
    requires k in m.prices
  {
    Live(m, k) && PriceWritten(m.prices[k], m.variants[k.variant].basePrice, m.tiers[k.tier], m.rates[k.code])
  }

  predicate SameRow(before: map<PriceKey, int>, after: map<PriceKey, int>, k: PriceKey) {
    (k in after <==> k in before) && (k in after ==> after[k] == before[k])
  }

  lemma RebuildWrites(m: Matrix, ids: set<VariantId>)
    requires HasBase(m) ==> m.rates[m.base.value] == ONE
    ensures PricedAnew(m.prices, Rebuilt(m, ids), ids)
  {
    if CanPrice(m, ids) {
      var v :| v in ids && v in m.variants;
      assert v in ids * m.variants.Keys;
      var e, live := Rebuilt(m, ids), ids * m.variants.Keys;
      forall k: PriceKey | k.variant in ids && k.variant in m.variants && Live(m, k)
        ensures k in e.prices && RowPriced(e, k) {
        assert k in Cells(live, m.tiers.Keys, m.rates.Keys);
        PriceRounds(m, k);
        assert PriceOf(e, k) == PriceOf(m, k);
      }
      forall k | k in e.prices && k.variant in ids && k.variant in m.variants ensures Live(m, k) { }
    } else {
      if HasBase(m) && m.tiers != map[] {
        forall v ensures v !in ids * m.variants.Keys { }
      }
    }
  }

  lemma FullRebuildWrites(m: Matrix)
    requires HasBase(m) ==> m.rates[m.base.value] == ONE
    ensures PricedAnew(m.prices, RebuiltAll(m), m.variants.Keys)
  {
    RebuildWrites(m, m.variants.Keys);
  }

  /** Every call that rebuilds everything: these rates, tiers and variants, with the rows that
      were left priced anew. */
  ghost predicate Reworked(m: Matrix, e: Matrix, rates: map<Code, Rate>, tiers: map<TierId, Percent>,
                           left: map<PriceKey, int>) {
    && e.base == m.base && e.variants == m.variants && e.rates == rates && e.tiers == tiers
    && PricedAnew(left, e, m.variants.Keys)
  }

  // ------------------------------------------------------------ currencies

  lemma CurrencyWrites(m: Matrix, code: Code, rate: int)
    requires Valid(m)
    ensures CreateCurrency(m, code, rate).Committed? <==> code !in m.rates && rate > 0
    ensures CreateCurrency(m, code, rate).Committed? ==>
              rate > 0 && Reworked(m, CreateCurrency(m, code, rate).value, m.rates[code := rate], m.tiers, m.prices)
    ensures UpdateRate(m, code, rate).Committed?
            <==> code in m.rates && rate > 0 && (m.base == Some(code) ==> rate == 1000000)
    ensures UpdateRate(m, code, rate).Committed? ==>
              rate > 0 && Reworked(m, UpdateRate(m, code, rate).value, m.rates[code := rate], m.tiers, m.prices)
  {
    if rate > 0 && (m.base == Some(code) ==> rate == ONE) {
      FullRebuildWrites(m.(rates := m.rates[code := rate]));
    }
  }

  lemma CurrencyDeletes(m: Matrix, code: Code, quoted: bool)
    requires Valid(m)
    ensures DeleteCurrency(m, code, quoted).Committed?
            <==> code in m.rates && m.base != Some(code) && !quoted && forall k :: k in m.prices ==> k.code != code
    ensures DeleteCurrency(m, code, quoted).Committed? ==>
              Reworked(m, DeleteCurrency(m, code, quoted).value, m.rates - {code}, m.tiers, m.prices)
  {
    if m.base != Some(code) { FullRebuildWrites(m.(rates := m.rates - {code})); }
  }

  // ----------------------------------------------------------------- tiers

  lemma TierWrites(m: Matrix, tier: TierId, percent: int)
    requires Valid(m)
    ensures CreateTier(m, tier, percent).Committed? <==> tier !in m.tiers && 0 <= percent <= 10000
    ensures CreateTier(m, tier, percent).Committed? ==>
              0 <= percent <= FULL
                  && Reworked(m, CreateTier(m, tier, percent).value, m.rates, m.tiers[tier := percent], m.prices)
    ensures UpdateTier(m, tier, percent).Committed? <==> tier in m.tiers && 0 <= percent <= 10000
    ensures UpdateTier(m, tier, percent).Committed? ==>
              0 <= percent <= FULL
                  && Reworked(m, UpdateTier(m, tier, percent).value, m.rates, m.tiers[tier := percent], m.prices)
  {
    if 0 <= percent <= FULL { FullRebuildWrites(m.(tiers := m.tiers[tier := percent])); }
  }

  /** The tier's own rows go with it, and only those. */
  ghost predicate WithoutTier(before: map<PriceKey, int>, left: map<PriceKey, int>, tier: TierId) {
    forall k: PriceKey :: if k.tier == tier then k !in left else SameRow(before, left, k)
  }

  lemma TierDeletes(m: Matrix, tier: TierId, inUse: bool) returns (left: map<PriceKey, int>)
    requires Valid(m)
    ensures DeleteTier(m, tier, inUse).Committed? <==> tier in m.tiers && !inUse
    ensures DeleteTier(m, tier, inUse).Committed? ==>
              && WithoutTier(m.prices, left, tier)
              && Reworked(m, DeleteTier(m, tier, inUse).value, m.rates, m.tiers - {tier}, left)
  {
    left := m.prices - RowsOfTier(m, tier);
    FullRebuildWrites(m.(tiers := m.tiers - {tier}, prices := left));
  }

  // -------------------------------------------------------------- variants

  lemma VariantWrites(m: Matrix, variant: VariantId, product: nat, inUse: bool)
    ensures AddVariant(m, variant, product).Committed? <==> variant !in m.variants
    ensures variant !in m.variants ==>
              AddVariant(m, variant, product).value
                == m.(variants := m.variants[variant := Variant(product, 0, false)])
    ensures DropVariant(m, variant, inUse).Committed? <==> variant in m.variants && !inUse
    ensures DropVariant(m, variant, inUse).Committed? ==>
              var e := DropVariant(m, variant, inUse).value;
              && e.variants == m.variants - {variant} && e.base == m.base && e.rates == m.rates && e.tiers == m.tiers
              && forall k: PriceKey :: if k.variant == variant then k !in e.prices else SameRow(m.prices, e.prices, k)
  {
  }

  // ------------------------------------------------------------- the matrix

  predicate RowFine(m: Matrix, product: nat, row: SaveRow) {
    && row.variant in m.variants && m.variants[row.variant].product == product
    && row.cost > 0 && row.price > 0 && row.stocked
  }

  /** Why a row is refused: the first thing wrong with it. */
  function Wrong(m: Matrix, product: nat, row: SaveRow): Refusal {
    if row.variant !in m.variants || m.variants[row.variant].product != product then ForeignVariant
    else if row.cost <= 0 then NoCost
    else if row.price <= 0 then NoPrice
    else NoStockFigure
  }

  /** A save is refused for the first row that is not fine, and only then. */
  lemma {:induction false} SaveRefusedFor(m: Matrix, product: nat, rows: seq<SaveRow>)
    ensures FirstRefusal(m, product, rows).None? <==> forall i :: 0 <= i < |rows| ==> RowFine(m, product, rows[i])
    ensures FirstRefusal(m, product, rows).Some? ==>
              exists i :: 0 <= i < |rows| && !RowFine(m, product, rows[i])
                          && FirstRefusal(m, product, rows) == Some(Wrong(m, product, rows[i]))
                          && forall j :: 0 <= j < i ==> RowFine(m, product, rows[j])
  {
    if rows != [] {
      SaveRefusedFor(m, product, rows[1..]);
      assert rows == [rows[0]] + rows[1..];
      if !RowFine(m, product, rows[0]) {
        assert FirstRefusal(m, product, rows) == Some(Wrong(m, product, rows[0]));
      } else if FirstRefusal(m, product, rows).Some? {
        var i :| 0 <= i < |rows[1..]| && !RowFine(m, product, rows[1..][i])
                 && FirstRefusal(m, product, rows[1..]) == Some(Wrong(m, product, rows[1..][i]))
                 && forall j :: 0 <= j < i ==> RowFine(m, product, rows[1..][j]);
        assert rows[i + 1] == rows[1..][i];
        forall j | 0 <= j < i + 1 ensures RowFine(m, product, rows[j]) {
          if j > 0 { assert rows[j] == rows[1..][j - 1]; }
        }
      }
    }
  }

  /** The variants after these rows: a named one carries the price of the last row naming it,
      no other is touched. */
  ghost predicate TypedInto(before: map<VariantId, Variant>, after: map<VariantId, Variant>, rows: seq<SaveRow>) {
    && after.Keys == before.Keys
    && (forall v :: v in before && v !in NamedIn(rows) ==> after[v] == before[v])
    && (forall i :: 0 <= i < |rows| && LastFor(rows, i) && rows[i].variant in before && rows[i].price > 0 ==>
          after[rows[i].variant] == Variant(before[rows[i].variant].product, rows[i].price, true))
  }

  lemma RowsAreTyped(variants: map<VariantId, Variant>, rows: seq<SaveRow>)
    requires forall i :: 0 <= i < |rows| ==> rows[i].price > 0
    ensures TypedInto(variants, Typed(variants, rows), rows)
  {
    TypedKeeps(variants, rows);
    forall i | 0 <= i < |rows| && LastFor(rows, i) && rows[i].variant in variants
      ensures Typed(variants, rows)[rows[i].variant] == Variant(variants[rows[i].variant].product, rows[i].price, true)
    {
      TypedValue(variants, rows, i);
    }
  }

  /** An accepted save with a base currency and a tier: the typed prices are stored and the
      named variants priced anew from them, nothing else moves. */
  lemma SaveWrites(m: Matrix, product: nat, rows: seq<SaveRow>)
    requires Valid(m)
    ensures SaveMatrix(m, product, rows).Committed? <==> forall i :: 0 <= i < |rows| ==> RowFine(m, product, rows[i])
    ensures SaveMatrix(m, product, rows).Committed? && rows != [] && HasBase(m) && m.tiers != map[] ==>
              var e := SaveMatrix(m, product, rows).value;
              && e.base == m.base && e.rates == m.rates && e.tiers == m.tiers
              && TypedInto(m.variants, e.variants, rows) && PricedAnew(m.prices, e, NamedIn(rows))
  {
    SaveRefusedFor(m, product, rows);
    if (forall i :: 0 <= i < |rows| ==> RowFine(m, product, rows[i])) && rows != [] && HasBase(m) && m.tiers != map[] {
      var typed := m.(variants := Typed(m.variants, rows));
      RowsAreTyped(m.variants, rows);
      RebuildWrites(typed, NamedIn(rows));
      assert RowFine(m, product, rows[0]);
      assert rows[0].variant in NamedIn(rows) * typed.variants.Keys;
    }
  }

  // ---------------------------------------------------------- the refusals

  predicate PricedIn(m: Matrix, code: Code) { exists k :: k in m.prices && k.code == code }

  /** Why a currency or a tier call is refused: the first of these that applies. */
  lemma CatalogRefusals(m: Matrix, code: Code, rate: int, quoted: bool, tier: TierId, percent: int, inUse: bool)
    ensures UpdateRate(m, code, rate).Refused? ==>
              UpdateRate(m, code, rate).reason == if code !in m.rates then Unknown
                                                  else if m.base == Some(code) && rate != 1000000 then BaseRateFixed
                                                  else ConstraintViolated
    ensures DeleteCurrency(m, code, quoted).Refused? ==>
              DeleteCurrency(m, code, quoted).reason == if code !in m.rates then Unknown
                                                        else if m.base == Some(code) then BaseNotDeletable
                                                        else if PricedIn(m, code) then StillPriced
                                                        else StillQuoted
    ensures UpdateTier(m, tier, percent).Refused? ==>
              UpdateTier(m, tier, percent).reason == if tier !in m.tiers then Unknown else ConstraintViolated
    ensures DeleteTier(m, tier, inUse).Refused? ==>
              DeleteTier(m, tier, inUse).reason == if tier !in m.tiers then Unknown else StillInUse
    ensures CreateCurrency(m, code, rate).Refused? ==> CreateCurrency(m, code, rate).reason == ConstraintViolated
    ensures CreateTier(m, tier, percent).Refused? ==> CreateTier(m, tier, percent).reason == ConstraintViolated
  {
  }
}
