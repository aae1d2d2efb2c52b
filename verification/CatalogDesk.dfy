/** The pricing and catalog services: the nested rebuild loops, and the catalog tables the
    calls update in place, each proved to have the effect `PriceMatrix` gives it. */
module CatalogDesk {
  import opened Outcomes
  import opened Numbers
  import opened PriceMatrix

  lemma WrittenTwice(m: Matrix, prices: map<PriceKey, int>, first: set<PriceKey>, more: set<PriceKey>)
    requires HasBase(m) && forall k :: k in first + more ==> Live(m, k)
    ensures Written(m, Written(m, prices, first), more) == Written(m, prices, first + more)
  {
  }

  lemma CellsSplit(variants: set<VariantId>, tiers: set<TierId>, codes: set<Code>, v: VariantId, t: TierId)
    ensures Cells(variants + {v}, tiers, codes) == Cells(variants, tiers, codes) + Cells({v}, tiers, codes)
    ensures Cells(variants, tiers + {t}, codes) == Cells(variants, tiers, codes) + Cells(variants, {t}, codes)
  {
  }

  /** The cells of one tier's row written so far. */
  ghost predicate RowWritten(
      m: Matrix, v: VariantId, t: TierId, done: set<Code>, before: map<PriceKey, int>, prices: map<PriceKey, int>)
    requires HasBase(m) && v in m.variants && t in m.tiers && done <= m.rates.Keys
  {
    && (forall k :: k in prices <==> k in before || (k.variant == v && k.tier == t && k.code in done))
    && (forall k :: k in prices ==>
          prices[k] == if k.variant == v && k.tier == t && k.code in done then PriceOf(m, k) else before[k])
  }

  lemma RowIsWritten(m: Matrix, v: VariantId, t: TierId, before: map<PriceKey, int>, prices: map<PriceKey, int>)
    requires HasBase(m) && v in m.variants && t in m.tiers && RowWritten(m, v, t, m.rates.Keys, before, prices)
    ensures prices == Written(m, before, Cells({v}, {t}, m.rates.Keys))
  {
  }

  /** The innermost loop: one variant's row for one tier, in every currency. */
  method WriteTier(m: Matrix, v: VariantId, t: TierId, before: map<PriceKey, int>) returns (prices: map<PriceKey, int>)
    requires HasBase(m) && v in m.variants && t in m.tiers
    ensures prices == Written(m, before, Cells({v}, {t}, m.rates.Keys))
  {
    prices := before;
    var codes := m.rates.Keys;
    while codes != {}
      invariant codes <= m.rates.Keys
      invariant RowWritten(m, v, t, m.rates.Keys - codes, before, prices)
      decreases |codes|
    {
      var c :| c in codes;
      prices := prices[PriceKey(v, t, c) := PriceOf(m, PriceKey(v, t, c))];
      codes := codes - {c};
    }
    assert m.rates.Keys - codes == m.rates.Keys;
    RowIsWritten(m, v, t, before, prices);
  }

  lemma OneMoreTier(m: Matrix, v: VariantId, before: map<PriceKey, int>, done: set<TierId>, t: TierId)
    requires HasBase(m) && v in m.variants && done <= m.tiers.Keys && t in m.tiers
    ensures Written(m, Written(m, before, Cells({v}, done, m.rates.Keys)), Cells({v}, {t}, m.rates.Keys))
         == Written(m, before, Cells({v}, done + {t}, m.rates.Keys))
  {
    CellsSplit({v}, done, m.rates.Keys, v, t);
    WrittenTwice(m, before, Cells({v}, done, m.rates.Keys), Cells({v}, {t}, m.rates.Keys));
  }

  method WriteVariant(m: Matrix, v: VariantId, before: map<PriceKey, int>) returns (prices: map<PriceKey, int>)
    requires HasBase(m) && v in m.variants
    ensures prices == Written(m, before, Cells({v}, m.tiers.Keys, m.rates.Keys))
  {
    prices := before;
    var tiers := m.tiers.Keys;
    while tiers != {}
      invariant tiers <= m.tiers.Keys
      invariant prices == Written(m, before, Cells({v}, m.tiers.Keys - tiers, m.rates.Keys))
      decreases |tiers|
    {
      var t :| t in tiers;
      OneMoreTier(m, v, before, m.tiers.Keys - tiers, t);
      assert m.tiers.Keys - (tiers - {t}) == m.tiers.Keys - tiers + {t};
      prices := WriteTier(m, v, t, prices);
      tiers := tiers - {t};
    }
    assert m.tiers.Keys - tiers == m.tiers.Keys;
  }

  method DropDead(m: Matrix, ids: set<VariantId>, written: map<PriceKey, int>) returns (prices: map<PriceKey, int>)
    ensures prices == written - DeadRows(m, ids)
  {
    prices := written;
    var rows := m.prices.Keys;
    while rows != {}
      invariant rows <= m.prices.Keys
      invariant prices == written - (DeadRows(m, ids) - rows)
      decreases |rows|
    {
      var k :| k in rows;
      if Dead(m, k, ids) { prices := prices - {k}; }
      rows := rows - {k};
    }
  }

  /** rebuild_variant_prices. */
  method RebuildRows(m: Matrix, ids: set<VariantId>) returns (prices: map<PriceKey, int>)
    ensures prices == RebuildPrices(m, ids)
  {
    if !HasBase(m) || m.tiers == map[] { return m.prices; }
    var live := ids * m.variants.Keys;
    if live == {} { return m.prices; }
    prices := m.prices;
    var variants := live;
    while variants != {}
      invariant variants <= live
      invariant prices == Written(m, m.prices, Cells(live - variants, m.tiers.Keys, m.rates.Keys))
      decreases |variants|
    {
      var v :| v in variants;
      ghost var done := live - variants;
      CellsSplit(done, m.tiers.Keys, m.rates.Keys, v, 0);
      assert live - (variants - {v}) == done + {v};
      prices := WriteVariant(m, v, prices);
      WrittenTwice(m, m.prices, Cells(done, m.tiers.Keys, m.rates.Keys), Cells({v}, m.tiers.Keys, m.rates.Keys));
      variants := variants - {v};
    }
    assert live - variants == live;
    prices := DropDead(m, live, prices);
  }

  /** The first row the validation loop refuses. */
  method ValidateRows(m: Matrix, product: nat, rows: seq<SaveRow>) returns (refusal: Option<Refusal>)
    ensures refusal == FirstRefusal(m, product, rows)
  {
    for i := 0 to |rows|
      invariant FirstRefusal(m, product, rows) == FirstRefusal(m, product, rows[i..])
    {
      assert rows[i..][1..] == rows[i + 1..];
      var row := rows[i];
      if row.variant !in m.variants || m.variants[row.variant].product != product { return Some(ForeignVariant); }
      if row.cost <= 0 { return Some(NoCost); }
      if row.price <= 0 { return Some(NoPrice); }
      if !row.stocked { return Some(NoStockFigure); }
    }
    refusal := None;
  }

  method TypeRows(variants: map<VariantId, Variant>, rows: seq<SaveRow>) returns (typed: map<VariantId, Variant>)
    requires forall i :: 0 <= i < |rows| ==> rows[i].variant in variants && rows[i].price > 0
    ensures typed == Typed(variants, rows)
  {
    typed := variants;
    for i := 0 to |rows|
      invariant typed == Typed(variants, rows[..i]) && typed.Keys == variants.Keys
    {
      var row := rows[i];
      assert rows[..i + 1][..i] == rows[..i];
      typed := typed[row.variant := typed[row.variant].(basePrice := row.price, saved := true)];
    }
    assert rows[..|rows|] == rows;
  }

  class CatalogService {
    const base: Option<Code>
    var rates: map<Code, Rate>
    var tiers: map<TierId, Percent>
    var variants: map<VariantId, Variant>
    var prices: map<PriceKey, int>

    function Snapshot(): Matrix
      reads this
    {
      Matrix(base, rates, tiers, variants, prices)
    }

    constructor (base: Option<Code>)
      ensures this.base == base && Snapshot() == Opening(base) && Valid(Snapshot())
    {
      this.base := base;
      rates := if base.Some? then map[base.value := ONE] else map[];
      tiers, variants, prices := map[], map[], map[];
    }

    method RebuildEverything()
      modifies `prices
      ensures Snapshot() == RebuiltAll(old(Snapshot()))
    {
      prices := RebuildRows(Snapshot(), variants.Keys);
    }

    method AddCurrency(code: Code, rate: int) returns (refusal: Option<Refusal>)
      modifies `rates, `prices
      ensures var outcome := CreateCurrency(old(Snapshot()), code, rate);
              && Snapshot() == After(outcome, old(Snapshot()))
              && refusal == (if outcome.Refused? then Some(outcome.reason) else None)
    {
      if code in rates || rate <= 0 { return Some(ConstraintViolated); }
      rates := rates[code := rate];
      RebuildEverything();
      refusal := None;
    }

    method SetRate(code: Code, rate: int) returns (refusal: Option<Refusal>)
      modifies `rates, `prices
      ensures var outcome := UpdateRate(old(Snapshot()), code, rate);
              && Snapshot() == After(outcome, old(Snapshot()))
              && refusal == (if outcome.Refused? then Some(outcome.reason) else None)
    {
      if code !in rates { return Some(Unknown); }
      if base == Some(code) && rate != ONE { return Some(BaseRateFixed); }
      if rate <= 0 { return Some(ConstraintViolated); }
      rates := rates[code := rate];
      RebuildEverything();
      refusal := None;
    }

    method RemoveCurrency(code: Code, quoted: bool) returns (refusal: Option<Refusal>)
      modifies `rates, `prices
      ensures var outcome := DeleteCurrency(old(Snapshot()), code, quoted);
              && Snapshot() == After(outcome, old(Snapshot()))
              && refusal == (if outcome.Refused? then Some(outcome.reason) else None)
    {
      if code !in rates { return Some(Unknown); }
      if base == Some(code) { return Some(BaseNotDeletable); }
      if exists k :: k in prices && k.code == code { return Some(StillPriced); }
      if quoted { return Some(StillQuoted); }
      rates := rates - {code};
      RebuildEverything();
      refusal := None;
    }

    method AddTier(tier: TierId, percent: int) returns (refusal: Option<Refusal>)
      modifies `tiers, `prices
      ensures var outcome := CreateTier(old(Snapshot()), tier, percent);
              && Snapshot() == After(outcome, old(Snapshot()))
              && refusal == (if outcome.Refused? then Some(outcome.reason) else None)
    {
      if tier in tiers || percent < 0 || percent > FULL { return Some(ConstraintViolated); }
      tiers := tiers[tier := percent];
      RebuildEverything();
      refusal := None;
    }

    method SetTier(tier: TierId, percent: int) returns (refusal: Option<Refusal>)
      modifies `tiers, `prices
      ensures var outcome := UpdateTier(old(Snapshot()), tier, percent);
              && Snapshot() == After(outcome, old(Snapshot()))
              && refusal == (if outcome.Refused? then Some(outcome.reason) else None)
    {
      if tier !in tiers { return Some(Unknown); }
      if percent < 0 || percent > FULL { return Some(ConstraintViolated); }
      tiers := tiers[tier := percent];
      RebuildEverything();
      refusal := None;
    }

    method RemoveTier(tier: TierId, inUse: bool) returns (refusal: Option<Refusal>)
      modifies `tiers, `prices
      ensures var outcome := DeleteTier(old(Snapshot()), tier, inUse);
              && Snapshot() == After(outcome, old(Snapshot()))
              && refusal == (if outcome.Refused? then Some(outcome.reason) else None)
    {
      if tier !in tiers { return Some(Unknown); }
      if inUse { return Some(StillInUse); }
      prices := prices - RowsOfTier(Snapshot(), tier);
      tiers := tiers - {tier};
      RebuildEverything();
      refusal := None;
    }

    method Add(variant: VariantId, product: nat) returns (refusal: Option<Refusal>)
      modifies `variants
      ensures var outcome := AddVariant(old(Snapshot()), variant, product);
              && Snapshot() == After(outcome, old(Snapshot()))
              && refusal == (if outcome.Refused? then Some(outcome.reason) else None)
    {
      if variant in variants { return Some(ConstraintViolated); }
      variants := variants[variant := Variant(product, 0, false)];
      refusal := None;
    }

    method Drop(variant: VariantId, inUse: bool) returns (refusal: Option<Refusal>)
      modifies `variants, `prices
      ensures var outcome := DropVariant(old(Snapshot()), variant, inUse);
              && Snapshot() == After(outcome, old(Snapshot()))
              && refusal == (if outcome.Refused? then Some(outcome.reason) else None)
    {
      if variant !in variants { return Some(Unknown); }
      if inUse { return Some(StillInUse); }
      prices := prices - RowsOfVariant(Snapshot(), variant);
      variants := variants - {variant};
      refusal := None;
    }

    /** The typed rows live in the session; only the rebuild commits them. */
    method Save(product: nat, rows: seq<SaveRow>) returns (refusal: Option<Refusal>)
      modifies `variants, `prices
      ensures var outcome := SaveMatrix(old(Snapshot()), product, rows);
              && Snapshot() == After(outcome, old(Snapshot()))
              && refusal == (if outcome.Refused? then Some(outcome.reason) else None)
    {
      refusal := ValidateRows(Snapshot(), product, rows);
      if refusal.Some? { return; }
      AcceptedRowsAreTyped(Snapshot(), product, rows);
      var committed := variants;
      variants := TypeRows(variants, rows);
      if NothingToRebuild(Snapshot(), NamedIn(rows)) {
        variants := committed;
      } else {
        prices := RebuildRows(Snapshot(), NamedIn(rows));
      }
    }

    method Perform(call: Call) returns (refusal: Option<Refusal>)
      requires Valid(Snapshot())
      modifies this
      ensures var outcome := Attempt(old(Snapshot()), call);
              && Snapshot() == After(outcome, old(Snapshot()))
              && refusal == (if outcome.Refused? then Some(outcome.reason) else None)
      ensures Valid(Snapshot())
    {
      CallKeepsValid(Snapshot(), call);
      match call
      case DoCreateCurrency(code, rate) => refusal := AddCurrency(code, rate);
      case DoUpdateRate(code, rate) => refusal := SetRate(code, rate);
      case DoDeleteCurrency(code, quoted) => refusal := RemoveCurrency(code, quoted);
      case DoCreateTier(tier, percent) => refusal := AddTier(tier, percent);
      case DoUpdateTier(tier, percent) => refusal := SetTier(tier, percent);
      case DoDeleteTier(tier, inUse) => refusal := RemoveTier(tier, inUse);
      case DoAddVariant(variant, product) => refusal := Add(variant, product);
      case DoDropVariant(variant, inUse) => refusal := Drop(variant, inUse);
      case DoSave(product, rows) => refusal := Save(product, rows);
    }
  }
}
